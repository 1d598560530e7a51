/** The alias generator favours no alias. */
module Uniformity {
  import opened Common
  import opened Random

  // ---------- Residues below a cutoff ----------

  /** The numbers below `limit` that are r modulo k. */
  function WithResidue(limit: nat, k: nat, r: nat): set<nat>
    requires k > 0
  {
    set b: nat | b < limit && b % k == r
  }

  /** Below any limit, residue r occurs limit/k times, and once more if the tail reaches it. */
  lemma {:induction false} ResidueCount(limit: nat, k: nat, r: nat)
    requires 0 < k && r < k
    ensures |WithResidue(limit, k, r)| == limit / k + if r < limit % k then 1 else 0
  {
    if limit == 0 {
      assert WithResidue(0, k, r) == {};
    } else {
      var last := limit - 1;
      ResidueCount(last, k, r);
      Successor(last, k);
      if last % k == r {
        assert WithResidue(limit, k, r) == WithResidue(last, k, r) + {last};
      } else {
        assert WithResidue(limit, k, r) == WithResidue(last, k, r);
      }
    }
  }

  lemma Successor(n: nat, k: nat)
    requires k > 0
    ensures (n + 1) / k == if n % k == k - 1 then n / k + 1 else n / k
    ensures (n + 1) % k == if n % k == k - 1 then 0 else n % k + 1
  {
    var q, r := n / k, n % k;
    assert n == q * k + r;
    if r == k - 1 {
      assert n + 1 == (q + 1) * k;
      Quotient(n + 1, k, q + 1, 0);
    } else {
      Quotient(n + 1, k, q, r + 1);
    }
  }

  lemma Quotient(n: nat, k: nat, q: nat, r: nat)
    requires k > 0 && r < k && n == q * k + r
    ensures n / k == q && n % k == r
  {
    var d := n / k - q;
    assert n == (n / k) * k + n % k;
    assert d * k == r - n % k;
  }

  /** Every residue is equally frequent below the limit. */
  ghost predicate Fair(limit: nat, k: nat)
    requires k > 0
  {
    forall r, r' | 0 <= r < k && 0 <= r' < k :: |WithResidue(limit, k, r)| == |WithResidue(limit, k, r')|
  }

  /** The cutoff M - M % k leaves each residue exactly M/k preimages. */
  lemma ShareBelowCutoff(M: nat, k: nat, r: nat)
    requires 0 < k && r < k
    ensures 0 <= M - M % k && |WithResidue(M - M % k, k, r)| == M / k
  {
    Quotient(M - M % k, k, M / k, 0);
    ResidueCount(M - M % k, k, r);
  }

  /** A cutoff is fair iff it is a multiple of k, and M - M % k is the greatest fair one up to M. */
  lemma FairCutoff(M: nat, k: nat, limit: nat)
    requires 0 < k && limit <= M
    ensures Fair(limit, k) <==> limit % k == 0
    ensures 0 <= M - M % k && Fair(M - M % k, k) && (Fair(limit, k) ==> limit <= M - M % k)
  {
    forall l: nat
      ensures Fair(l, k) <==> l % k == 0
    {
      FairIff(l, k);
    }
    var cut := M - M % k;
    Quotient(cut, k, M / k, 0);
    if limit % k == 0 && limit > cut {
      assert M - limit < k;
      Quotient(M, k, limit / k, M - limit);
    }
  }

  lemma FairIff(limit: nat, k: nat)
    requires 0 < k
    ensures Fair(limit, k) <==> limit % k == 0
  {
    forall r | 0 <= r < k
      ensures |WithResidue(limit, k, r)| == limit / k + if r < limit % k then 1 else 0
    {
      ResidueCount(limit, k, r);
    }
    if limit % k != 0 {
      assert |WithResidue(limit, k, 0)| != |WithResidue(limit, k, k - 1)|;
    }
  }

  // ---------- Whole aliases ----------

  /** Where a letter stands in the alphabet. */
  function Position(c: char): nat {
    if 'A' <= c <= 'Z' then (c - 'A') as nat
    else if 'a' <= c <= 'z' then (c - 'a') as nat + 26
    else (c as int - '0' as int + 52) as nat
  }

  lemma CodeOfLetter(i: nat)
    requires i < |CHARSET|
    ensures CHARSET[i] as int == if i < 26 then 65 + i else if i < 52 then 97 + (i - 26) else 48 + (i - 52)
  {
    if i < 26 {
      assert CHARSET[i] == UPPER[i];
    } else if i < 52 {
      assert CHARSET[i] == LOWER[i - 26];
    } else {
      assert CHARSET[i] == DIGITS[i - 52];
    }
  }

  lemma PositionOfLetter(i: nat)
    requires i < |CHARSET|
    ensures Position(CHARSET[i]) == i
  {
    CodeOfLetter(i);
  }

  predicate IsAlias(a: string) {
    forall c | c in a :: c in CHARSET
  }

  lemma LetterIs(b: byte, c: char)
    requires c in CHARSET
    ensures Position(c) < |CHARSET| && CHARSET[Position(c)] == c
    ensures Letter(b) == c <==> b % |CHARSET| == Position(c)
  {
    var i :| 0 <= i < |CHARSET| && CHARSET[i] == c;
    PositionOfLetter(i);
    PositionOfLetter(b % |CHARSET|);
  }

  /** Every byte of one set in front of every string of another. */
  function Product(bs: set<byte>, rs: set<seq<byte>>): set<seq<byte>> {
    set b, r | b in bs && r in rs :: [b] + r
  }

  lemma ProductIs(bs: set<byte>, rs: set<seq<byte>>, s: seq<byte>)
    ensures s in Product(bs, rs) <==> s != [] && s[0] in bs && s[1..] in rs
  {
    if s in Product(bs, rs) {
      var b, r :| b in bs && r in rs && s == [b] + r;
      assert s[1..] == r;
    }
    if s != [] && s[0] in bs && s[1..] in rs {
      assert s == [s[0]] + s[1..];
    }
  }

  /** All byte strings of length n with every byte below the limit. */
  function Strings(n: nat, limit: nat): set<seq<byte>>
    requires limit <= 256
  {
    if n == 0 then {[]}
    else Product(Below(limit), Strings(n - 1, limit))
  }

  predicate IsBelow(b: byte, limit: nat) {
    b < limit
  }

  function Below(limit: nat): set<byte>
    requires limit <= 256
  {
    set b: byte | IsBelow(b, limit)
  }

  predicate AllBelow(s: seq<byte>, limit: nat) {
    s == [] || (s[0] < limit && AllBelow(s[1..], limit))
  }

  lemma {:induction false} StringsAre(n: nat, limit: nat, s: seq<byte>)
    requires limit <= 256
    ensures s in Strings(n, limit) <==> |s| == n && AllBelow(s, limit)
  {
    if n > 0 {
      ProductIs(Below(limit), Strings(n - 1, limit), s);
      if s != [] {
        StringsAre(n - 1, limit, s[1..]);
      }
    }
  }

  lemma {:induction false} BytesAreBelow256(s: seq<byte>)
    ensures AllBelow(s, 256)
  {
    if s != [] {
      BytesAreBelow256(s[1..]);
    }
  }

  lemma {:induction false} ProductSize(bs: set<byte>, rs: set<seq<byte>>)
    ensures |Product(bs, rs)| == |bs| * |rs|
  {
    if bs == {} {
      assert Product(bs, rs) == {};
    } else {
      var x :| x in bs;
      var mine, rest := set r | r in rs :: [x] + r, Product(bs - {x}, rs);
      PrefixSize(x, rs);
      ProductSize(bs - {x}, rs);
      RowOf(x, bs, rs);
      PartsSize(Product(bs, rs), mine, rest);
      OneMoreRow(|bs|, |bs - {x}|, |rs|);
    }
  }

  lemma PartsSize(all: set<seq<byte>>, mine: set<seq<byte>>, rest: set<seq<byte>>)
    requires mine !! rest && all == mine + rest
    ensures |all| == |mine| + |rest|
  {
  }

  lemma RowOf(x: byte, bs: set<byte>, rs: set<seq<byte>>)
    requires x in bs
    ensures var mine, rest := set r | r in rs :: [x] + r, Product(bs - {x}, rs);
            mine !! rest && Product(bs, rs) == mine + rest
  {
    var mine, rest := set r | r in rs :: [x] + r, Product(bs - {x}, rs);
    forall s: seq<byte>
      ensures s in mine <==> s in Product({x}, rs)
      ensures s in Product(bs, rs) <==> s in mine || s in rest
      ensures !(s in mine && s in rest)
    {
      ProductIs({x}, rs, s);
      ProductIs(bs, rs, s);
      ProductIs(bs - {x}, rs, s);
    }
  }

  lemma OneMoreRow(m: nat, fewer: nat, n: nat)
    requires m == fewer + 1
    ensures n + fewer * n == m * n
  {
  }

  lemma {:induction false} PrefixSize(x: byte, rs: set<seq<byte>>)
    ensures |set r | r in rs :: [x] + r| == |rs|
  {
    if rs != {} {
      var q :| q in rs;
      PrefixSize(x, rs - {q});
      var rest := set r | r in rs - {q} :: [x] + r;
      assert (set r | r in rs :: [x] + r) == rest + {[x] + q};
      forall r | r in rs - {q}
        ensures [x] + r != [x] + q
      {
        assert ([x] + r)[1..] == r && ([x] + q)[1..] == q;
      }
    }
  }

  function Power(base: nat, n: nat): nat {
    if n == 0 then 1 else base * Power(base, n - 1)
  }

  /** The strings of accepted bytes, one byte a letter, that spell an alias. */
  function Spellings(a: string): set<seq<byte>> {
    set s | s in Strings(|a|, MAX_RANDOM_BYTE) && Letters(s) == a
  }

  function BytesFor(c: char): set<byte> {
    set b: byte | Accepted(b) && Letter(b) == c
  }

  lemma FourBytesPerLetter(c: char)
    requires c in CHARSET
    ensures |BytesFor(c)| == 4
  {
    LetterIs(0, c);
    AlphabetSize();
    forall b: byte {
      BytesForIs(c, b);
    }
    FourInStepsOf62(BytesFor(c), Position(c));
  }

  lemma FourInStepsOf62(bytes: set<byte>, p: byte)
    requires p < 62
    requires forall b: byte :: b in bytes <==> b - p == 0 || b - p == 62 || b - p == 124 || b - p == 186
    ensures |bytes| == 4
  {
    assert bytes == {p, p + 62, p + 124, p + 186};
  }

  lemma BytesForIs(c: char, b: byte)
    requires c in CHARSET
    ensures b in BytesFor(c) <==>
            b - Position(c) == 0 || b - Position(c) == 62 || b - Position(c) == 124 || b - Position(c) == 186
  {
    AlphabetSize();
    LetterIs(b, c);
    SameResidue(b, Position(c));
  }

  lemma SameResidue(b: byte, p: nat)
    requires p < 62
    ensures b < 248 && b % 62 == p <==> b - p == 0 || b - p == 62 || b - p == 124 || b - p == 186
  {
  }

  /** Every alias of n letters is spelled by exactly 4^n of the accepted byte strings of length n. */
  lemma {:induction false} SpellingsPerAlias(a: string)
    requires IsAlias(a)
    ensures |Spellings(a)| == Power(4, |a|)
  {
    if a == "" {
      assert Spellings(a) == {[]};
    } else {
      var heads, tails := BytesFor(a[0]), Spellings(a[1..]);
      assert a[0] in CHARSET && IsAlias(a[1..]);
      FourBytesPerLetter(a[0]);
      SpellingsPerAlias(a[1..]);
      ProductSize(heads, tails);
      forall s
        ensures s in Spellings(a) <==> s in Product(heads, tails)
      {
        SpellingSplits(a, s);
      }
      assert Spellings(a) == Product(heads, tails);
    }
  }

  lemma SpellingSplits(a: string, s: seq<byte>)
    requires a != ""
    ensures s in Spellings(a) <==> s in Product(BytesFor(a[0]), Spellings(a[1..]))
  {
    SpellingsAre(a, s);
    ProductIs(BytesFor(a[0]), Spellings(a[1..]), s);
    if s != [] {
      SpellingsAre(a[1..], s[1..]);
      if Accepted(s[0]) {
        FirstLetter(a, s);
      }
    }
  }

  lemma SpellingsAre(a: string, s: seq<byte>)
    ensures s in Spellings(a) <==> |s| == |a| && AllBelow(s, MAX_RANDOM_BYTE) && Letters(s) == a
  {
    StringsAre(|a|, MAX_RANDOM_BYTE, s);
  }

  lemma FirstLetter(a: string, s: seq<byte>)
    requires a != "" && s != [] && Accepted(s[0])
    ensures Letters(s) == a <==> Letter(s[0]) == a[0] && Letters(s[1..]) == a[1..]
  {
    assert a == [a[0]] + a[1..];
    assert Letters(s) == [Letter(s[0])] + Letters(s[1..]);
    assert Letters(s)[1..] == Letters(s[1..]);
  }

  // ---------- The whole generator, rejections and blocks included ----------

  /** A byte for c, turned into the byte for c' with the same quotient. */
  function Swap(b: byte, c: char, c': char): (r: byte)
    requires Accepted(b) && Letter(b) == c && c in CHARSET && c' in CHARSET
    ensures Accepted(r) && Letter(r) == c' && r / |CHARSET| == b / |CHARSET|
  {
    LetterIs(b, c');
    SwapBounds(b, c');
    var r: byte := (b / |CHARSET|) * |CHARSET| + Position(c');
    LetterIs(r, c');
    r
  }

  lemma SwapBounds(b: byte, c': char)
    requires Accepted(b) && Position(c') < |CHARSET|
    ensures var r := (b / |CHARSET|) * |CHARSET| + Position(c');
            0 <= r < MAX_RANDOM_BYTE && r % |CHARSET| == Position(c') && r / |CHARSET| == b / |CHARSET|
  {
    AlphabetSize();
    assert b / 62 <= 3;
    Quotient((b / 62) * 62 + Position(c'), 62, b / 62, Position(c'));
  }

  /** A byte is determined by its letter and its quotient. */
  lemma SameByte(a: byte, b: byte)
    requires Letter(a) == Letter(b) && a / |CHARSET| == b / |CHARSET|
    ensures a == b
  {
    AlphabetSize();
    LetterIs(a, Letter(b));
    LetterIs(b, Letter(b));
    Recompose(a);
    Recompose(b);
  }

  lemma Recompose(b: byte)
    ensures b == b / 62 * 62 + b % 62
  {
  }

  lemma SwapBack(b: byte, c: char, c': char)
    requires Accepted(b) && Letter(b) == c && c in CHARSET && c' in CHARSET
    ensures Swap(Swap(b, c, c'), c', c) == b
  {
    SameByte(Swap(Swap(b, c, c'), c', c), b);
  }

  /** The stream spells a, possibly with rejected bytes in between and more bytes after. */
  predicate Spells(s: seq<byte>, a: string) {
    IsAlias(a) && a <= Letters(s)
  }

  /** The stream with the letters of a replaced by those of a', byte by byte. */
  function Respell(s: seq<byte>, a: string, a': string): seq<byte>
    requires Spells(s, a) && IsAlias(a') && |a| == |a'|
  {
    if s == [] || a == "" then s
    else if Accepted(s[0]) then
      SpellsRest(s, a);
      assert a[0] in CHARSET && a'[0] in CHARSET;
      [Swap(s[0], a[0], a'[0])] + Respell(s[1..], a[1..], a'[1..])
    else
      [s[0]] + Respell(s[1..], a, a')
  }

  lemma SpellsRest(s: seq<byte>, a: string)
    requires Spells(s, a) && s != [] && a != "" && Accepted(s[0])
    ensures Letter(s[0]) == a[0] && Spells(s[1..], a[1..])
  {
    assert Letters(s)[1..] == Letters(s[1..]);
    assert a[0] == Letters(s)[0];
  }

  lemma {:induction false} RespellSpells(s: seq<byte>, a: string, a': string)
    requires Spells(s, a) && IsAlias(a') && |a| == |a'|
    ensures var t := Respell(s, a, a');
            |t| == |s| && Spells(t, a') && |Letters(t)| == |Letters(s)| && Respell(t, a', a) == s
  {
    if s != [] && a != "" {
      if Accepted(s[0]) {
        SpellsRest(s, a);
        assert a[0] in CHARSET && a'[0] in CHARSET;
        RespellSpells(s[1..], a[1..], a'[1..]);
        SwapBack(s[0], a[0], a'[0]);
        var t := Respell(s, a, a');
        assert t[1..] == Respell(s[1..], a[1..], a'[1..]);
        assert a' == [a'[0]] + a'[1..];
      } else {
        RespellSpells(s[1..], a, a');
        assert Respell(s, a, a')[1..] == Respell(s[1..], a, a');
      }
    }
  }

  /** The same bytes are rejected. */
  predicate SamePattern(s: seq<byte>, t: seq<byte>) {
    |s| == |t| && forall i | 0 <= i < |s| :: Accepted(s[i]) <==> Accepted(t[i])
  }

  lemma {:induction false} SamePatternSpellsAsMuch(s: seq<byte>, t: seq<byte>)
    requires SamePattern(s, t)
    ensures |Letters(s)| == |Letters(t)|
  {
    if s != [] {
      SamePatternSpellsAsMuch(s[1..], t[1..]);
    }
  }

  lemma {:induction false} RespellKeepsPattern(s: seq<byte>, a: string, a': string)
    requires Spells(s, a) && IsAlias(a') && |a| == |a'|
    ensures SamePattern(s, Respell(s, a, a'))
  {
    if s != [] && a != "" {
      if Accepted(s[0]) {
        SpellsRest(s, a);
        assert a[0] in CHARSET && a'[0] in CHARSET;
        RespellKeepsPattern(s[1..], a[1..], a'[1..]);
      } else {
        RespellKeepsPattern(s[1..], a, a');
      }
    }
  }

  lemma SamePatternSuffices(s: seq<byte>, t: seq<byte>, size: nat, k: nat)
    requires SamePattern(s, t)
    ensures Suffices(s, size, k) <==> Suffices(t, size, k)
  {
    if k * size <= |s| {
      SamePatternSpellsAsMuch(s[..k * size], t[..k * size]);
    }
  }

  /** What the generator reads, and whether it succeeds, depends only on which bytes are rejected. */
  lemma SamePatternReads(s: seq<byte>, t: seq<byte>, size: nat)
    requires SamePattern(s, t) && Draw(s, size).Some?
    ensures Draw(t, size).Some? && FirstSufficing(s, size, 0) == FirstSufficing(t, size, 0)
  {
    forall k: nat
      ensures Suffices(s, size, k) <==> Suffices(t, size, k)
    {
      SamePatternSuffices(s, t, size, k);
    }
    FewestIsUnique(s, size, FirstSufficing(s, size, 0), FirstSufficing(t, size, 0));
  }

  /** How many bytes a draw reads. */
  function ReadBy(s: seq<byte>, size: nat): (n: nat)
    requires Draw(s, size).Some?
    ensures n <= |s| && AfterDraw(s, size) == s[n..]
  {
    FirstSufficing(s, size, 0) * size
  }

  lemma DrawSpells(s: seq<byte>, a: string)
    requires IsAlias(a) && Draw(s, |a|).Some?
    ensures Draw(s, |a|) == Some(a) <==> Spells(s[..ReadBy(s, |a|)], a)
  {
    var k := FirstSufficing(s, |a|, 0);
    EnoughBlocks(s, |a|, k);
    var letters := Letters(s[..k * |a|]);
    assert a <= letters <==> letters[..|a|] == a;
  }

  /** One draw after another yields these aliases. */
  predicate DrawsAll(s: seq<byte>, size: nat, aliases: seq<string>)
    decreases aliases
  {
    aliases == [] ||
    (Draw(s, size) == Some(aliases[0]) && DrawsAll(AfterDraw(s, size), size, aliases[1..]))
  }

  predicate AreAliases(aliases: seq<string>, size: nat) {
    forall a | a in aliases :: IsAlias(a) && |a| == size
  }

  /** The stream with the aliases it draws replaced by others, draw by draw. */
  ghost function Redraw(s: seq<byte>, size: nat, aliases: seq<string>, others: seq<string>): seq<byte>
    decreases aliases
  {
    if aliases == [] || others == [] || Draw(s, size).None? then s
    else
      var n := ReadBy(s, size);
      if Spells(s[..n], aliases[0]) && IsAlias(others[0]) && |aliases[0]| == |others[0]| then
        Respell(s[..n], aliases[0], others[0]) + Redraw(s[n..], size, aliases[1..], others[1..])
      else s
  }

  lemma PatternConcat(s: seq<byte>, n: nat, front: seq<byte>, rest: seq<byte>)
    requires n <= |s| && SamePattern(s[..n], front) && SamePattern(s[n..], rest)
    ensures SamePattern(s, front + rest)
  {
    forall i | 0 <= i < |s|
      ensures Accepted(s[i]) <==> Accepted((front + rest)[i])
    {
      assert s[i] == if i < n then s[..n][i] else s[n..][i - n];
    }
  }

  lemma {:induction false} RedrawDraws(s: seq<byte>, size: nat, aliases: seq<string>, others: seq<string>)
    requires AreAliases(aliases, size) && AreAliases(others, size) && |aliases| == |others|
    requires DrawsAll(s, size, aliases)
    ensures var t := Redraw(s, size, aliases, others);
            SamePattern(s, t) && DrawsAll(t, size, others) && Redraw(t, size, others, aliases) == s
    decreases aliases
  {
    if aliases != [] {
      assert aliases[0] in aliases && others[0] in others;
      FrontIsRespelled(s, aliases[0], others[0]);
      TailsAreAliases(aliases, size);
      TailsAreAliases(others, size);
      var n := ReadBy(s, size);
      var front := Respell(s[..n], aliases[0], others[0]);
      var rest := Redraw(s[n..], size, aliases[1..], others[1..]);
      assert Redraw(s, size, aliases, others) == front + rest;
      RedrawDraws(s[n..], size, aliases[1..], others[1..]);
      RedrawJoins(s, size, aliases, others, front, rest);
    }
  }

  lemma TailsAreAliases(aliases: seq<string>, size: nat)
    requires aliases != [] && AreAliases(aliases, size)
    ensures AreAliases(aliases[1..], size)
  {
  }

  lemma FrontIsRespelled(s: seq<byte>, a: string, a': string)
    requires IsAlias(a) && IsAlias(a') && |a| == |a'| && Draw(s, |a|) == Some(a)
    ensures var read := s[..ReadBy(s, |a|)];
            Spells(read, a) &&
            var front := Respell(read, a, a');
            SamePattern(read, front) && Spells(front, a') && Respell(front, a', a) == read
  {
    DrawSpells(s, a);
    RespellSpells(s[..ReadBy(s, |a|)], a, a');
    RespellKeepsPattern(s[..ReadBy(s, |a|)], a, a');
  }

  /** The front and the rest of the new stream fit together. */
  lemma RedrawJoins(s: seq<byte>, size: nat, aliases: seq<string>, others: seq<string>,
                    front: seq<byte>, rest: seq<byte>)
    requires aliases != [] && others != [] && IsAlias(aliases[0]) && |aliases[0]| == |others[0]| == size
    requires Draw(s, size).Some? && SamePattern(s[..ReadBy(s, size)], front) && Spells(front, others[0])
    requires Respell(front, others[0], aliases[0]) == s[..ReadBy(s, size)]
    requires SamePattern(s[ReadBy(s, size)..], rest) && DrawsAll(rest, size, others[1..])
    requires Redraw(rest, size, others[1..], aliases[1..]) == s[ReadBy(s, size)..]
    ensures SamePattern(s, front + rest) && DrawsAll(front + rest, size, others)
    ensures Redraw(front + rest, size, others, aliases) == s
  {
    var n := ReadBy(s, size);
    PatternConcat(s, n, front, rest);
    RedrawnFront(s, size, others[0], front, rest);
    assert (front + rest)[..n] == front && (front + rest)[n..] == rest;
    RedrawBack(front + rest, size, aliases, others, n, s);
  }

  /** The first draw of the new stream reads as much as that of the old one, and draws the new alias. */
  lemma RedrawnFront(s: seq<byte>, size: nat, a': string, front: seq<byte>, rest: seq<byte>)
    requires Draw(s, size).Some? && |a'| == size && Spells(front, a')
    requires SamePattern(s, front + rest) && |front| == ReadBy(s, size)
    ensures Draw(front + rest, size) == Some(a') && ReadBy(front + rest, size) == |front|
    ensures AfterDraw(front + rest, size) == rest
  {
    var t := front + rest;
    SamePatternReads(s, t, size);
    assert t[..|front|] == front && t[|front|..] == rest;
    DrawSpells(t, a');
  }

  /** Putting the old alias back gives the old stream. */
  lemma RedrawBack(t: seq<byte>, size: nat, aliases: seq<string>, others: seq<string>, n: nat, s: seq<byte>)
    requires aliases != [] && others != [] && |aliases[0]| == |others[0]| && IsAlias(aliases[0])
    requires Draw(t, size).Some? && ReadBy(t, size) == n <= |s| && Spells(t[..n], others[0])
    requires Respell(t[..n], others[0], aliases[0]) == s[..n]
    requires Redraw(t[n..], size, others[1..], aliases[1..]) == s[n..]
    ensures Redraw(t, size, others, aliases) == s
  {
    assert s == s[..n] + s[n..];
  }

  lemma {:induction false} NoLargerThan<T>(A: set<T>, B: set<T>, f: T -> T, g: T -> T)
    requires forall x | x in A :: f(x) in B && g(f(x)) == x
    ensures |A| <= |B|
  {
    if A != {} {
      var x :| x in A;
      NoLargerThan(A - {x}, B - {f(x)}, f, g);
    }
  }

  /** The streams of L bytes on which successive draws yield these aliases. */
  function DrawingAll(L: nat, size: nat, aliases: seq<string>): set<seq<byte>> {
    set s | s in Strings(L, 256) && DrawsAll(s, size, aliases)
  }

  lemma RedrawIsInto(L: nat, size: nat, aliases: seq<string>, others: seq<string>, s: seq<byte>)
    requires AreAliases(aliases, size) && AreAliases(others, size) && |aliases| == |others|
    requires s in DrawingAll(L, size, aliases)
    ensures Redraw(s, size, aliases, others) in DrawingAll(L, size, others)
    ensures Redraw(Redraw(s, size, aliases, others), size, others, aliases) == s
  {
    var t := Redraw(s, size, aliases, others);
    RedrawDraws(s, size, aliases, others);
    StringsAre(L, 256, s);
    BytesAreBelow256(t);
    StringsAre(L, 256, t);
  }

  lemma NotMoreDraw(L: nat, size: nat, aliases: seq<string>, others: seq<string>)
    requires AreAliases(aliases, size) && AreAliases(others, size) && |aliases| == |others|
    ensures |DrawingAll(L, size, aliases)| <= |DrawingAll(L, size, others)|
  {
    forall s | s in DrawingAll(L, size, aliases) {
      RedrawIsInto(L, size, aliases, others, s);
    }
    NoLargerThan(DrawingAll(L, size, aliases), DrawingAll(L, size, others),
                 s => Redraw(s, size, aliases, others), s => Redraw(s, size, others, aliases));
  }

  /** Successive draws are jointly uniform: of all streams of L bytes, as many yield one sequence of aliases
      as any other of the same number and length. */
  lemma DrawsAreUniform(L: nat, size: nat, aliases: seq<string>, others: seq<string>)
    requires AreAliases(aliases, size) && AreAliases(others, size) && |aliases| == |others|
    ensures |DrawingAll(L, size, aliases)| == |DrawingAll(L, size, others)|
  {
    NotMoreDraw(L, size, aliases, others);
    NotMoreDraw(L, size, others, aliases);
  }

  /** The streams of L bytes on which the generator draws the alias a. */
  function Drawing(L: nat, a: string): set<seq<byte>> {
    set s | s in Strings(L, 256) && Draw(s, |a|) == Some(a)
  }

  lemma OneDraw(s: seq<byte>, a: string)
    ensures DrawsAll(s, |a|, [a]) <==> Draw(s, |a|) == Some(a)
  {
    assert [a][1..] == [];
  }

  lemma DrawingOne(L: nat, a: string)
    ensures Drawing(L, a) == DrawingAll(L, |a|, [a])
  {
    forall s
      ensures s in Drawing(L, a) <==> s in DrawingAll(L, |a|, [a])
    {
      OneDraw(s, a);
    }
  }

  /** In particular, as many draw one alias as any other of the same length. */
  lemma DrawIsUniform(L: nat, a: string, a': string)
    requires IsAlias(a) && IsAlias(a') && |a| == |a'|
    ensures |Drawing(L, a)| == |Drawing(L, a')|
  {
    DrawingOne(L, a);
    DrawingOne(L, a');
    DrawsAreUniform(L, |a|, [a], [a']);
  }

  /** Whatever is drawn is a string of the alphabet, of the asked length. */
  lemma DrawnIsAlias(s: seq<byte>, size: nat)
    requires Draw(s, size).Some?
    ensures IsAlias(Draw(s, size).value) && |Draw(s, size).value| == size
  {
    LettersAreLetters(s[..Blocks(|s|, size) * size]);
  }

  lemma {:induction false} LettersAreLetters(s: seq<byte>)
    ensures IsAlias(Letters(s))
  {
    if s != [] {
      LettersAreLetters(s[1..]);
    }
  }
}
