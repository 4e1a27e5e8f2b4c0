/** Short random identifiers by rejection sampling over batches of random bytes. */
module NanoIds {
  import opened Arithmetic
  import opened Options

  type Byte = n: int | 0 <= n < 256

  /** Between 1 and 256 letters; the source uses A to Z, a to z and 0 to 9. */
  type Alphabet = s: string | 1 <= |s| <= 256 witness "A"

  const NANO_ID_ALPHABET: Alphabet := Characters('A', 26) + Characters('a', 26) + Characters('0', 10)
  const NANO_ID_LENGTH := 8

  function Characters(first: char, n: nat): (s: string)
    requires first as int + n < 0xD800
    ensures |s| == n
  {
    seq(n, i requires 0 <= i < n => (first as int + i) as char)
  }

  function Ceiling(letters: nat): (c: nat)
    requires 1 <= letters <= 256
    ensures c <= 256
  {
    256 - 256 % letters
  }

  function Letter(abc: Alphabet, b: Byte): char {
    abc[b % |abc|]
  }

  /** The letters of the accepted bytes, in order. */
  function Images(abc: Alphabet, bytes: seq<Byte>): string {
    if bytes == [] then "" else
      var b := bytes[|bytes| - 1];
      Images(abc, bytes[..|bytes| - 1]) + if b < Ceiling(|abc|) then [Letter(abc, b)] else ""
  }

  function Concat(batches: seq<seq<Byte>>): seq<Byte> {
    if batches == [] then [] else Concat(batches[..|batches| - 1]) + batches[|batches| - 1]
  }

  lemma {:induction false} ImagesOfConcat(abc: Alphabet, a: seq<Byte>, b: seq<Byte>)
    ensures Images(abc, a + b) == Images(abc, a) + Images(abc, b)
  {
    if b == [] {
      assert a + b == a;
    } else {
      ImagesOfConcat(abc, a, b[..|b| - 1]);
      assert (a + b)[..|a + b| - 1] == a + b[..|b| - 1];
    }
  }

  /** What the first `n` batches give. */
  function Given(abc: Alphabet, batches: seq<seq<Byte>>, n: nat): string
    requires n <= |batches|
  {
    Images(abc, Concat(batches[..n]))
  }

  lemma GivenNext(abc: Alphabet, batches: seq<seq<Byte>>, n: nat)
    requires n < |batches|
    ensures Given(abc, batches, n + 1) == Given(abc, batches, n) + Images(abc, batches[n])
  {
    assert batches[..n + 1][..n] == batches[..n];
    ImagesOfConcat(abc, Concat(batches[..n]), batches[n]);
  }

  lemma {:induction false} GivenGrows(abc: Alphabet, batches: seq<seq<Byte>>, n: nat, m: nat)
    requires n <= m <= |batches|
    ensures Given(abc, batches, n) <= Given(abc, batches, m)
  {
    if n < m {
      GivenGrows(abc, batches, n, m - 1);
      GivenNext(abc, batches, m - 1);
    }
  }

  lemma PartOfBatch(abc: Alphabet, batch: seq<Byte>, k: nat)
    requires k <= |batch|
    ensures Images(abc, batch[..k]) <= Images(abc, batch)
  {
    ImagesOfConcat(abc, batch[..k], batch[k..]);
    assert batch == batch[..k] + batch[k..];
  }

  /**
    `batches` are the results of the successive calls of `randomBytes`. The answer is
    the letters of the first eight accepted bytes, and it is given as soon as the
    batches hold eight; `None` means that the source is still drawing.
  */
  method GenerateNanoId(abc: Alphabet, batches: seq<seq<Byte>>) returns (r: Option<string>, drawn: nat)
    ensures r.Some? <==> |Images(abc, Concat(batches))| >= 8
    ensures r.Some? ==> r.value == Images(abc, Concat(batches))[..8]
    ensures drawn <= |batches| && (r.Some? ==> |Given(abc, batches, drawn)| >= 8)
    ensures r.Some? ==> forall n :: 0 <= n < drawn ==> |Given(abc, batches, n)| < 8
  {
    var id := "";
    drawn := 0;
    assert batches[..|batches|] == batches;
    while |id| < NANO_ID_LENGTH
      invariant drawn <= |batches| && |id| <= NANO_ID_LENGTH
      invariant id <= Given(abc, batches, drawn)
      invariant |id| < NANO_ID_LENGTH ==> id == Given(abc, batches, drawn)
      invariant forall n :: 0 <= n < drawn ==> |Given(abc, batches, n)| < NANO_ID_LENGTH
      decreases |batches| - drawn
    {
      if drawn == |batches| {
        return None, drawn;
      }
      id := TakeBatch(abc, id, batches[drawn]);
      GivenNext(abc, batches, drawn);
      drawn := drawn + 1;
    }
    GivenGrows(abc, batches, drawn, |batches|);
    r := Some(id);
  }

  /** The inner loop: the accepted bytes of a batch are appended until the identifier is full. */
  method TakeBatch(abc: Alphabet, start: string, batch: seq<Byte>) returns (id: string)
    requires |start| < NANO_ID_LENGTH
    ensures |id| <= NANO_ID_LENGTH && id <= start + Images(abc, batch)
    ensures |id| < NANO_ID_LENGTH ==> id == start + Images(abc, batch)
  {
    id := start;
    for k := 0 to |batch|
      invariant |id| < NANO_ID_LENGTH
      invariant id == start + Images(abc, batch[..k])
    {
      assert batch[..k + 1][..k] == batch[..k];
      var byte := batch[k];
      if byte >= Ceiling(|abc|) {
        continue;
      }
      id := id + [Letter(abc, byte)];
      if |id| == NANO_ID_LENGTH {
        PartOfBatch(abc, batch, k + 1);
        break;
      }
    }
    assert batch[..|batch|] == batch;
  }

  /** Every character given is from the alphabet. */
  lemma {:induction false} ImagesAreLetters(abc: Alphabet, bytes: seq<Byte>)
    ensures forall c :: c in Images(abc, bytes) ==> c in abc
  {
    if bytes != [] {
      ImagesAreLetters(abc, bytes[..|bytes| - 1]);
    }
  }

  /** What one byte gives: nothing from the largest multiple of the alphabet's size on, else the letter at its remainder. */
  lemma ByteGives(abc: Alphabet, bytes: seq<Byte>, b: Byte)
    ensures Images(abc, bytes + [b]) == Images(abc, bytes) + if b < 256 - 256 % |abc| then [abc[b % |abc|]] else ""
  {
    assert (bytes + [b])[..|bytes|] == bytes;
  }

  /** The source's letters: A to Z for the remainders 0 to 25 by 62, then a to z, then 0 to 9. */
  lemma SourceByteGives(b: Byte)
    ensures |NANO_ID_ALPHABET| == 62
    ensures b >= 248 ==> Images(NANO_ID_ALPHABET, [b]) == ""
    ensures b < 248 ==>
              && |Images(NANO_ID_ALPHABET, [b])| == 1
              && var r, c := b % 62, Images(NANO_ID_ALPHABET, [b])[0];
                 c as int == if r < 26 then 'A' as int + r else if r < 52 then 'a' as int + r - 26 else '0' as int + r - 52
  {
    ByteGives(NANO_ID_ALPHABET, [], b);
    assert [] + [b] == [b] && [b][..0] == [];
  }

  // ---- fairness ----

  /** How many bytes below `bound` fall on the letter with this index. */
  function Count(bound: nat, letters: nat, letter: nat): nat
    requires letters > 0
  {
    if bound == 0 then 0
    else Count(bound - 1, letters, letter) + if (bound - 1) % letters == letter then 1 else 0
  }

  lemma {:induction false} CountIs(bound: nat, letters: nat, letter: nat)
    requires letter < letters
    ensures Count(bound, letters, letter) == bound / letters + if letter < bound % letters then 1 else 0
  {
    if bound == 0 {
      SmallQuotient(letters);
    } else {
      CountIs(bound - 1, letters, letter);
      NextQuotient(bound - 1, letters);
    }
  }

  lemma SmallQuotient(d: nat)
    requires d > 0
    ensures 0 / d == 0 && 0 % d == 0
  {
  }

  lemma NextQuotient(n: nat, d: nat)
    requires d > 0
    ensures (n + 1) / d == n / d + if n % d == d - 1 then 1 else 0
    ensures (n + 1) % d == if n % d == d - 1 then 0 else n % d + 1
  {
    var q, r := n / d, n % d;
    assert n == q * d + r;
    if r == d - 1 {
      assert n + 1 == (q + 1) * d;
      DivMod(n + 1, d, q + 1, 0);
    } else {
      DivMod(n + 1, d, q, r + 1);
    }
  }

  lemma DivMod(n: nat, d: nat, q: nat, r: nat)
    requires r < d && n == q * d + r
    ensures n / d == q && n % d == r
  {
    Quotient(n, d, q);
    assert n == (n / d) * d + n % d;
  }

  /** Below the ceiling every letter has the same number of bytes, for any alphabet of 1 to 256 letters. */
  lemma CeilingIsFair(letters: nat, letter: nat)
    requires 1 <= letters <= 256 && letter < letters
    ensures Count(Ceiling(letters), letters, letter) == 256 / letters
    ensures Ceiling(letters) > 0
  {
    assert 256 == (256 / letters) * letters + 256 % letters;
    DivMod(Ceiling(letters), letters, 256 / letters, 0);
    CountIs(Ceiling(letters), letters, letter);
  }

  /** Without the ceiling exactly the first `256 % letters` letters have one byte more. */
  lemma AllBytesFavourTheFirst(letters: nat, letter: nat)
    requires 1 <= letters <= 256 && letter < letters
    ensures Count(256, letters, letter) == 256 / letters + if letter < 256 % letters then 1 else 0
  {
    CountIs(256, letters, letter);
  }

  /** How many bytes below `bound` give the character `c`. */
  function Bytes(abc: Alphabet, bound: nat, c: char): nat
    requires bound <= 256
  {
    if bound == 0 then 0 else Bytes(abc, bound - 1, c) + if Letter(abc, bound - 1) == c then 1 else 0
  }

  ghost predicate NoLetterTwice(abc: Alphabet) {
    forall i, j :: 0 <= i < j < |abc| ==> abc[i] != abc[j]
  }

  lemma {:induction false} BytesOf(abc: Alphabet, bound: nat, i: nat)
    requires bound <= 256 && i < |abc| && NoLetterTwice(abc)
    ensures Bytes(abc, bound, abc[i]) == Count(bound, |abc|, i)
  {
    if bound > 0 {
      BytesOf(abc, bound - 1, i);
      var j := (bound - 1) % |abc|;
      assert j < i ==> abc[j] != abc[i];
      assert i < j ==> abc[i] != abc[j];
    }
  }

  lemma {:induction false} NoBytes(abc: Alphabet, bound: nat, c: char)
    requires bound <= 256 && c !in abc
    ensures Bytes(abc, bound, c) == 0
  {
    if bound > 0 {
      NoBytes(abc, bound - 1, c);
    }
  }

  /** Every letter of an alphabet without repetitions is given by the same number of accepted bytes, and nothing else is given. */
  lemma EveryLetterIsAsLikely(abc: Alphabet, c: char)
    requires NoLetterTwice(abc)
    ensures Bytes(abc, Ceiling(|abc|), c) == if c in abc then 256 / |abc| else 0
  {
    if c in abc {
      var i :| 0 <= i < |abc| && abc[i] == c;
      BytesOf(abc, Ceiling(|abc|), i);
      CeilingIsFair(|abc|, i);
    } else {
      NoBytes(abc, Ceiling(|abc|), c);
    }
  }

  /** The source's alphabet: the ceiling is 248 and each of the 62 characters is given by four bytes. */
  lemma EachCharacterHasFourBytes(c: char)
    ensures Ceiling(|NANO_ID_ALPHABET|) == 248
    ensures Bytes(NANO_ID_ALPHABET, 248, c) == if 'A' <= c <= 'Z' || 'a' <= c <= 'z' || '0' <= c <= '9' then 4 else 0
  {
    var abc := NANO_ID_ALPHABET;
    assert forall i :: 0 <= i < 62 ==>
      abc[i] as int == if i < 26 then 65 + i else if i < 52 then 97 + i - 26 else 48 + i - 52;
    EveryLetterIsAsLikely(abc, c);
    if 'A' <= c <= 'Z' {
      assert abc[c as int - 65] == c;
    } else if 'a' <= c <= 'z' {
      assert abc[26 + c as int - 97] == c;
    } else if '0' <= c <= '9' {
      assert abc[52 + c as int - 48] == c;
    }
  }
}
