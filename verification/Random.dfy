/** The alias generator: rejection sampling of random bytes over a 62-letter alphabet.

    `Generator.Generate` keeps the nested loops of the program; `Draw` says what they compute as
    a filter, a map and a prefix of the byte stream. */
module Random {

  import opened Common

  type byte = b: int | 0 <= b < 256

  const UPPER: string := "ABCDEFGHIJKLMNOPQRSTUVWXYZ"
  const LOWER: string := "abcdefghijklmnopqrstuvwxyz"
  const DIGITS: string := "0123456789"
  const CHARSET := UPPER + LOWER + DIGITS
  const MAX_RANDOM_BYTE := 256 - (256 % |CHARSET|)

  lemma AlphabetSize()
    ensures |CHARSET| == 62 && MAX_RANDOM_BYTE == 248
  {
  }

  predicate Accepted(b: byte) {
    b < MAX_RANDOM_BYTE
  }

  function Letter(b: byte): char {
    CHARSET[b % |CHARSET|]
  }

  /** The letters of the accepted bytes of a stream, in order. */
  function Letters(s: seq<byte>): string {
    if s == [] then ""
    else if Accepted(s[0]) then [Letter(s[0])] + Letters(s[1..])
    else Letters(s[1..])
  }

  lemma ConcatAssociates(a: string, b: string, c: string)
    ensures (a + b) + c == a + (b + c)
  {
  }

  lemma {:induction false} LettersConcat(s: seq<byte>, t: seq<byte>)
    ensures Letters(s + t) == Letters(s) + Letters(t)
  {
    if s == [] {
      assert s + t == t;
    } else {
      assert (s + t)[0] == s[0] && (s + t)[1..] == s[1..] + t;
      LettersConcat(s[1..], t);
      ConcatAssociates([Letter(s[0])], Letters(s[1..]), Letters(t));
    }
  }

  lemma {:induction false} LettersLength(s: seq<byte>)
    ensures |Letters(s)| <= |s|
  {
    if s != [] {
      LettersLength(s[1..]);
    }
  }

  /** k blocks of `size` bytes hold enough accepted bytes for an alias. */
  predicate Suffices(s: seq<byte>, size: nat, k: nat) {
    k * size <= |s| && |Letters(s[..k * size])| >= size
  }

  /** k is the least number of blocks that suffices. */
  predicate Fewest(s: seq<byte>, size: nat, k: nat) {
    Suffices(s, size, k) && forall j: nat | j < k :: !Suffices(s, size, j)
  }

  /** The whole blocks of a source of n bytes: what reads of `size` bytes can deliver. */
  function Blocks(n: nat, size: nat): (k: nat)
    ensures k * size <= n
    ensures size > 0 ==> n < (k + 1) * size
  {
    if size == 0 then 0 else (assert (n / size) * size <= n; n / size)
  }

  /** The alias drawn from a finite source: the first `size` letters, if its whole blocks hold
      that many. */
  function Draw(s: seq<byte>, size: nat): Option<string> {
    var letters := Letters(s[..Blocks(|s|, size) * size]);
    if |letters| < size then None else Some(letters[..size])
  }

  lemma LettersOfPrefix(s: seq<byte>, a: nat, b: nat)
    requires a <= b <= |s|
    ensures Letters(s[..a]) <= Letters(s[..b])
  {
    assert s[..b] == s[..a] + s[a..b];
    LettersConcat(s[..a], s[a..b]);
  }

  lemma MultiplesAreMonotone(j: nat, k: nat, size: nat)
    requires j <= k
    ensures j * size <= k * size
  {
    assert (k - j) * size >= 0;
  }

  lemma BlocksIsLargest(s: seq<byte>, size: nat, k: nat)
    requires size > 0 && k * size <= |s|
    ensures k <= Blocks(|s|, size) && k * size <= Blocks(|s|, size) * size
    ensures |s| < (k + 1) * size ==> k == Blocks(|s|, size)
  {
    var m := Blocks(|s|, size);
    if k > m {
      MultiplesAreMonotone(m + 1, k, size);
    } else {
      MultiplesAreMonotone(k, m, size);
      if k < m {
        MultiplesAreMonotone(k + 1, m, size);
      }
    }
  }

  /** Once some blocks suffice, the draw is the first `size` letters of those blocks alone. */
  lemma EnoughBlocks(s: seq<byte>, size: nat, k: nat)
    requires Suffices(s, size, k)
    ensures Draw(s, size) == Some(Letters(s[..k * size])[..size])
  {
    if size == 0 {
      assert Letters(s[..k * size])[..size] == "" == Letters(s[..0])[..0];
    } else {
      BlocksIsLargest(s, size, k);
      var all := Blocks(|s|, size) * size;
      LettersOfPrefix(s, k * size, all);
      assert Letters(s[..k * size])[..size] == Letters(s[..all])[..size];
    }
  }

  lemma TooFewBlocks(s: seq<byte>, size: nat, k: nat)
    requires size > 0 && k * size <= |s| < (k + 1) * size && !Suffices(s, size, k)
    ensures Draw(s, size) == None && k == Blocks(|s|, size)
  {
    BlocksIsLargest(s, size, k);
  }

  /** The least number of blocks from k on that suffices. */
  function FirstSufficing(s: seq<byte>, size: nat, k: nat): (n: nat)
    requires k <= Blocks(|s|, size) && Suffices(s, size, Blocks(|s|, size))
    requires forall j: nat | j < k :: !Suffices(s, size, j)
    ensures Fewest(s, size, n)
    decreases Blocks(|s|, size) - k
  {
    if Suffices(s, size, k) then k else FirstSufficing(s, size, k + 1)
  }

  /** What a draw leaves unread. */
  function AfterDraw(s: seq<byte>, size: nat): seq<byte> {
    if Draw(s, size).None? then []
    else s[FirstSufficing(s, size, 0) * size..]
  }

  lemma FewestIsUnique(s: seq<byte>, size: nat, j: nat, k: nat)
    requires Fewest(s, size, j) && Fewest(s, size, k)
    ensures j == k
  {
  }

  /** A source of random bytes that fails once `bytes` is exhausted. */
  class EntropyReader {
    const bytes: seq<byte>
    var pos: nat

    ghost predicate Valid()
      reads this
    {
      pos <= |bytes|
    }

    /** What is still to be read. */
    function Rest(): seq<byte>
      requires Valid()
      reads this
    {
      bytes[pos..]
    }

    constructor (bytes: seq<byte>)
      ensures Valid() && Rest() == bytes
    {
      this.bytes := bytes;
      pos := 0;
    }

    /** Fills the whole buffer, or fails and leaves nothing to read. */
    method ReadFull(buffer: array<byte>) returns (ok: bool)
      requires Valid()
      modifies this`pos, buffer
      ensures Valid()
      ensures ok <==> buffer.Length <= |old(Rest())|
      ensures ok ==> buffer[..] == old(Rest())[..buffer.Length] && Rest() == old(Rest())[buffer.Length..]
      ensures !ok ==> Rest() == []
    {
      ok := buffer.Length <= |bytes| - pos;
      var n := if ok then buffer.Length else |bytes| - pos;
      forall i | 0 <= i < n {
        buffer[i] := bytes[pos + i];
      }
      pos := pos + n;
    }
  }

  class Generator {
    const size: nat
    const entropyReader: EntropyReader

    constructor (size: nat, entropyReader: EntropyReader)
      ensures this.size == size && this.entropyReader == entropyReader
    {
      this.size, this.entropyReader := size, entropyReader;
    }

    /** Draws an alias.  None is the error of a failed read; the program's empty alias goes with it.
        `blocks` is the number of successful reads. */
    method Generate() returns (alias: Option<string>, blocks: nat)
      requires entropyReader.Valid()
      modifies entropyReader
      ensures entropyReader.Valid()
      ensures alias == Draw(old(entropyReader.Rest()), size)
      ensures alias.Some? ==> Fewest(old(entropyReader.Rest()), size, blocks)
      ensures alias.Some? ==> entropyReader.Rest() == old(entropyReader.Rest())[blocks * size..]
      ensures entropyReader.Rest() == AfterDraw(old(entropyReader.Rest()), size)
      ensures alias.None? ==> blocks == Blocks(|old(entropyReader.Rest())|, size) && entropyReader.Rest() == []
    {
      ghost var s := entropyReader.Rest();
      var result := new char[size](_ => '\0');
      var random := new byte[size](_ => 0);
      blocks := 0;
      var i := 0;
      while i < size
        invariant entropyReader.Valid() && blocks * size <= |s| && entropyReader.Rest() == s[blocks * size..]
        invariant i <= size && i <= |Letters(s[..blocks * size])|
        invariant i < size ==> i == |Letters(s[..blocks * size])|
        invariant result[..i] == Letters(s[..blocks * size])[..i]
        invariant forall j: nat | j < blocks :: !Suffices(s, size, j)
        decreases |s| - blocks * size, size - i
      {
        ghost var before, done := s[..blocks * size], blocks * size;
        var ok := entropyReader.ReadFull(random);
        assert (blocks + 1) * size == done + size;
        if !ok {
          TooFewBlocks(s, size, blocks);
          return None, blocks;
        }
        assert random[..] == s[done..done + size];
        i := Translate(random, result, i, before);
        assert s[..done + size] == before + random[..];
        blocks := blocks + 1;
      }
      assert result[..] == result[..i];
      EnoughBlocks(s, size, blocks);
      FewestIsUnique(s, size, blocks, FirstSufficing(s, size, 0));
      alias := Some(result[..]);
    }

    /** The inner loop: appends the letters of one block to `result` from index i on, until it is
        full.  `before` is what was read earlier. */
    method Translate(random: array<byte>, result: array<char>, start: nat, ghost before: seq<byte>) returns (i: nat)
      requires result.Length == random.Length && start < result.Length
      requires start == |Letters(before)| && result[..start] == Letters(before)
      modifies result
      ensures start <= i <= result.Length && i <= |Letters(before + random[..])|
      ensures i < result.Length ==> i == |Letters(before + random[..])|
      ensures result[..i] == Letters(before + random[..])[..i]
    {
      i := start;
      var j := 0;
      assert before + random[..0] == before;
      while j < random.Length && i < result.Length
        invariant j <= random.Length && start <= i <= result.Length
        invariant i == |Letters(before + random[..j])| && result[..i] == Letters(before + random[..j])
        invariant random[..] == old(random[..])
      {
        var b := random[j];
        assert before + random[..j + 1] == (before + random[..j]) + [b];
        LettersConcat(before + random[..j], [b]);
        if b < MAX_RANDOM_BYTE {
          result[i] := CHARSET[b % |CHARSET|];
          i := i + 1;
        }
        j := j + 1;
      }
      assert before + random[..] == (before + random[..j]) + random[j..];
      LettersConcat(before + random[..j], random[j..]);
    }
  }
}
