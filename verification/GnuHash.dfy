/** Symbol lookup through the GNU hash section: deps/linker/elfSharedLibData.cpp. */
module GnuHash {
  import opened Bits

  type Word = x: nat | x < 0x1_0000_0000
  type Char = x: nat | 0 < x < 0x100 witness 1
  type Name = seq<Char>

  const TWO_32: nat := 0x1_0000_0000

  // ---------------------------------------------------------------- the hash

  /** h = 33 * h + c over the characters, modulo 2^32, from 5381. */
  function Hash(name: Name): Word {
    if name == [] then 5381 else (33 * Hash(name[..|name| - 1]) + name[|name| - 1]) % TWO_32
  }

  function Power33(n: nat): nat {
    if n == 0 then 1 else 33 * Power33(n - 1)
  }

  /** The name as a number in base 33, its first character the highest digit. */
  function Base33(name: Name): nat {
    if name == [] then 0 else name[0] * Power33(|name| - 1) + Base33(name[1..])
  }

  lemma {:induction false} Base33Last(name: Name)
    requires name != []
    ensures Base33(name) == 33 * Base33(name[..|name| - 1]) + name[|name| - 1]
  {
    if |name| > 1 {
      Base33Last(name[1..]);
      assert name[1..][..|name| - 2] == name[..|name| - 1][1..];
      DigitUp(name[0], |name| - 2);
    }
  }

  lemma DigitUp(c: nat, n: nat)
    ensures c * Power33(n + 1) == 33 * (c * Power33(n))
  {
  }

  lemma OneUp(n: nat, digits: nat, c: nat)
    ensures 5381 * Power33(n + 1) + (33 * digits + c) == 33 * (5381 * Power33(n) + digits) + c
  {
    DigitUp(5381, n);
  }

  lemma TimesModulo(x: nat, c: nat)
    ensures (33 * (x % TWO_32) + c) % TWO_32 == (33 * x + c) % TWO_32
  {
  }

  /** The hash in closed form: 5381 followed by the characters, in base 33, modulo 2^32. */
  lemma {:induction false} HashIs(name: Name)
    ensures Hash(name) == (5381 * Power33(|name|) + Base33(name)) % TWO_32
  {
    if name != [] {
      var n := |name| - 1;
      var before := 5381 * Power33(n) + Base33(name[..n]);
      HashIs(name[..n]);
      Base33Last(name);
      OneUp(n, Base33(name[..n]), name[n]);
      TimesModulo(before, name[n]);
    }
  }

  method GnuHash(name: Name) returns (h: Word)
    ensures h == Hash(name)
  {
    h := 5381;
    var k := 0;
    while k < |name|
      invariant 0 <= k <= |name|
      invariant h == Hash(name[..k])
    {
      assert name[..k + 1][..k] == name[..k];
      Times33(h, name[k]);
      h := (h + (h * 32) % TWO_32 + name[k]) % TWO_32;
      k := k + 1;
    }
    assert name[..k] == name;
  }

  /** h += (h << 5) + c */
  lemma Times33(h: Word, c: Char)
    ensures (h + (h * 32) % TWO_32 + c) % TWO_32 == (33 * h + c) % TWO_32
  {
  }

  // ---------------------------------------------------------------- the section

  /** The section in memory: four words, the Bloom filter's words of `bits` bits, and then the
      buckets with the chain values right behind them. `names` are the dynamic symbols' names. */
  datatype Section = Section(bits: nat, numBuckets: Word, symOffset: Word, bloomSize: Word, bloomShift: Word,
                             bloom: seq<nat>, words: seq<Word>, names: seq<Name>)

  /** The hashed symbols are those from symOffset on. */
  predicate Hashed(s: Section, n: int) {
    s.symOffset <= n < |s.names|
  }

  function BucketOf(s: Section, name: Name): nat
    requires s.numBuckets > 0
  {
    Hash(name) % s.numBuckets
  }

  /** The chain value of a hashed symbol, counted from the first of them. */
  function ChainValue(s: Section, n: nat): Word
    requires Hashed(s, n) && |s.words| == s.numBuckets + (|s.names| - s.symOffset)
  {
    s.words[s.numBuckets + (n - s.symOffset)]
  }

  predicate SameBucket(s: Section, m: nat, n: nat)
    requires s.numBuckets > 0 && m < |s.names| && n < |s.names|
  {
    BucketOf(s, s.names[m]) == BucketOf(s, s.names[n])
  }

  /** How link editors lay the section out. */
  ghost predicate WellFormed(s: Section) {
    && (s.bits == 32 || s.bits == 64) && s.bloomShift < 32
    && s.numBuckets > 0 && 0 < s.symOffset <= |s.names| < TWO_32
    && |s.words| == s.numBuckets + (|s.names| - s.symOffset)
    && 0 < s.bloomSize == |s.bloom| && IsPow2(s.bloomSize)
    && (forall n: nat | Hashed(s, n) :: InFilter(s, s.names[n]))
    && (forall m: nat, n: nat | Hashed(s, m) && Hashed(s, n) && m < n ::
          BucketOf(s, s.names[m]) <= BucketOf(s, s.names[n]))
    && (forall n: nat | Hashed(s, n) :: ChainValueIs(s, n))
    && (forall b: nat | b < s.numBuckets :: BucketIs(s, b))
  }

  predicate Bit(word: nat, k: nat) {
    ShiftRight(word, k) % 2 == 1
  }

  /** Both bits of the name's hash are set in its word of the Bloom filter. */
  predicate InFilter(s: Section, name: Name)
    requires s.bits > 0 && 0 < s.bloomSize == |s.bloom|
  {
    var word := s.bloom[(Hash(name) / s.bits) % s.bloomSize];
    Bit(word, Hash(name) % s.bits) && Bit(word, ShiftRight(Hash(name), s.bloomShift) % s.bits)
  }

  /** The hash, with the last bit telling whether the chain ends here. */
  predicate ChainValueIs(s: Section, n: nat)
    requires s.numBuckets > 0 && Hashed(s, n) && |s.words| == s.numBuckets + (|s.names| - s.symOffset)
  {
    && ChainValue(s, n) / 2 == Hash(s.names[n]) / 2
    && (ChainValue(s, n) % 2 == 1 <==> n + 1 == |s.names| || !SameBucket(s, n, n + 1))
  }

  /** A bucket holds the first of its symbols, or 0 if it has none. */
  ghost predicate BucketIs(s: Section, b: nat)
    requires b < s.numBuckets <= |s.words|
  {
    var first := s.words[b];
    if first == 0 then forall n: nat | Hashed(s, n) :: BucketOf(s, s.names[n]) != b
    else
      && Hashed(s, first) && BucketOf(s, s.names[first]) == b
      && forall n: nat | Hashed(s, n) && n < first :: BucketOf(s, s.names[n]) != b
  }

  // ---------------------------------------------------------------- parse and look up

  /** gnuHash of parsed_state_: pointers are positions in `words`, and bloomMask is bloom_size
      after it has been decremented. `chains` may lie inside the buckets, or before them. */
  datatype Parsed = Parsed(section: Section, bloomMask: Word, chains: int)

  /** The DT_GNU_HASH case of parse_input: refused unless bloom_size is a power
      of two, or zero, which passes the test as well. */
  method ParseInput(s: Section) returns (ok: bool, p: Parsed)
    ensures ok <==> s.bloomSize == 0 || IsPow2(s.bloomSize)
    ensures ok ==> p.section == s && p.chains == s.numBuckets - s.symOffset
    ensures ok ==> p.bloomMask == (if s.bloomSize == 0 then TWO_32 else s.bloomSize) - 1
  {
    var mask: Word := if s.bloomSize == 0 then TWO_32 - 1 else s.bloomSize - 1;
    p := Parsed(s, mask, s.numBuckets - s.symOffset);
    ok := And(mask, s.bloomSize) == 0;
    if s.bloomSize > 0 {
      PowerOfTwoTest(s.bloomSize);
    }
  }

  datatype Found = NotFound | Symbol(index: nat)

  /** The plain search that the index replaces. */
  function Scan(s: Section, name: Name, from: nat): (r: Found)
    requires from <= |s.names|
    ensures r == NotFound <==> forall n: nat :: from <= n < |s.names| ==> s.names[n] != name
    ensures r.Symbol? ==> from <= r.index < |s.names| && s.names[r.index] == name
    ensures r.Symbol? ==> forall n: nat :: from <= n < r.index ==> s.names[n] != name
    decreases |s.names| - from
  {
    if from == |s.names| then NotFound
    else if s.names[from] == name then Symbol(from)
    else Scan(s, name, from + 1)
  }

  /** 1 & x & y looks at the last bits. */
  lemma LastBits(x: nat, y: nat)
    ensures And(And(1, x), y) != 0 <==> x % 2 == 1 && y % 2 == 1
  {
    AndBelow(1, x);
    AndBelow(And(1, x), y);
  }

  lemma MaskedWord(s: Section, hash: nat, mask: Word)
    requires WellFormed(s) && mask == s.bloomSize - 1
    ensures And(hash / s.bits, mask) == (hash / s.bits) % s.bloomSize
  {
    var n := Exponent(s.bloomSize);
    MaskIsRemainder(hash / s.bits, n);
  }

  /** From the end of a bucket's chain on, no symbol is in the bucket. */
  lemma ChainEnds(s: Section, n: nat, m: nat)
    requires WellFormed(s) && Hashed(s, n) && n < m < |s.names| && ChainValue(s, n) % 2 == 1
    ensures !SameBucket(s, n, m)
  {
    assert ChainValueIs(s, n);
    assert BucketOf(s, s.names[n]) <= BucketOf(s, s.names[n + 1]) <= BucketOf(s, s.names[m]);
  }

  /** gnu_find_symbol_by_name finds what the plain search finds. It reads nothing outside its
      tables, and stops at the end of the chain at the latest. */
  method FindSymbol(p: Parsed, name: Name) returns (r: Found)
    requires WellFormed(p.section) && p.bloomMask == p.section.bloomSize - 1
    requires p.chains == p.section.numBuckets - p.section.symOffset
    ensures r == Scan(p.section, name, p.section.symOffset)
  {
    var s := p.section;
    var hash := GnuHash(name);
    var h2 := ShiftRight(hash, s.bloomShift);
    MaskedWord(s, hash, p.bloomMask);
    var word := s.bloom[And(hash / s.bits, p.bloomMask)];
    LastBits(ShiftRight(word, hash % s.bits), ShiftRight(word, h2 % s.bits));
    if And(And(1, ShiftRight(word, hash % s.bits)), ShiftRight(word, h2 % s.bits)) == 0 {
      assert !InFilter(s, name);
      return NotFound;
    }
    assert BucketIs(s, hash % s.numBuckets);
    var n: nat := s.words[hash % s.numBuckets];
    if n == 0 {
      return NotFound;
    }
    r := WalkChain(p, name, hash, n);
  }

  /** The loop over the chain. */
  method WalkChain(p: Parsed, name: Name, hash: Word, first: nat) returns (r: Found)
    requires WellFormed(p.section) && p.chains == p.section.numBuckets - p.section.symOffset && hash == Hash(name)
    requires Hashed(p.section, first) && BucketOf(p.section, p.section.names[first]) == BucketOf(p.section, name)
    requires NotBefore(p.section, name, first)
    ensures r == Scan(p.section, name, p.section.symOffset)
  {
    var s := p.section;
    var n, more := first, true;
    while more
      invariant s.symOffset <= n <= |s.names| && NotBefore(s, name, n)
      invariant more ==> n < |s.names| && BucketOf(s, s.names[n]) == BucketOf(s, name)
      invariant !more ==> NotFrom(s, name, n)
      decreases |s.names| - n
    {
      var chain := s.words[p.chains + n];
      ChainStep(s, name, hash, n, chain);
      if ShiftRight(Xor(chain, hash), 1) == 0 && s.names[n] == name {
        return Symbol(n);
      }
      more := And(chain, 1) == 0;
      n := n + 1;
    }
    r := NotFound;
  }

  /** What the two tests on a chain value tell about the search. */
  lemma ChainStep(s: Section, name: Name, hash: Word, n: nat, chain: Word)
    requires WellFormed(s) && Hashed(s, n) && BucketOf(s, s.names[n]) == BucketOf(s, name)
    requires hash == Hash(name) && chain == ChainValue(s, n)
    ensures s.names[n] == name ==> ShiftRight(Xor(chain, hash), 1) == 0
    ensures And(chain, 1) == 0 ==> n + 1 < |s.names| && BucketOf(s, s.names[n + 1]) == BucketOf(s, name)
    ensures And(chain, 1) != 0 ==> NotFrom(s, name, n + 1)
  {
    LinkTells(s, name, n);
    XorTest(chain, hash);
    LowBit(chain);
  }

  ghost predicate NotBefore(s: Section, name: Name, n: nat)
    requires n <= |s.names|
  {
    forall m: nat :: s.symOffset <= m < n ==> s.names[m] != name
  }

  ghost predicate NotFrom(s: Section, name: Name, n: nat) {
    forall m: nat :: n <= m < |s.names| ==> s.names[m] != name
  }

  /** What one chain value tells about the search: its hash bits rule the name in, its last bit
      whether the bucket goes on. */
  lemma LinkTells(s: Section, name: Name, n: nat)
    requires WellFormed(s) && Hashed(s, n) && BucketOf(s, s.names[n]) == BucketOf(s, name)
    ensures s.names[n] == name ==> ChainValue(s, n) / 2 == Hash(name) / 2
    ensures ChainValue(s, n) % 2 == 0 ==> n + 1 < |s.names| && BucketOf(s, s.names[n + 1]) == BucketOf(s, name)
    ensures ChainValue(s, n) % 2 == 1 ==> NotFrom(s, name, n + 1)
  {
    assert ChainValueIs(s, n);
    if ChainValue(s, n) % 2 == 1 {
      forall m: nat | n + 1 <= m < |s.names| ensures s.names[m] != name {
        ChainEnds(s, n, m);
      }
    }
  }

  lemma LowBit(x: nat)
    ensures And(x, 1) == x % 2
  {
    AndOdd(x, 0);
    assert And(x / 2, 0) == 0;
  }
}
