/**
 The GNU hash table of an ELF image: a Bloom filter, one start index per bucket, and a chain of
 hash words whose lowest bit flags the last symbol of a bucket
 (loader/src/common/elf_util.cpp:112-124 and 143-166).
 32-bit words are naturals below 2^32. A Bloom word is the set of the positions of its one bits,
 so `&` is intersection and `|` is union.
 */
module GnuTable {
  import opened Prelude
  import opened Bitwise
  import opened ElfHash
  import opened SymbolTable

  type Bits = set<nat>

  /** `chain[i]` belongs to symbol `symndx + i`. A table with no bucket or no Bloom word is absent. */
  datatype Table = Table(
    wordBits: nat, shift2: nat, bloom: seq<Bits>, buckets: seq<Uint32>, symndx: nat, chain: seq<Uint32>)

  function Mask(wordBits: nat, shift2: nat, hash: Uint32): Bits
    requires wordBits == 32 || wordBits == 64
  {
    {hash % wordBits} + {hash / Pow2(shift2) % wordBits}
  }

  function Bucket(s: Symbol, nbucket: nat): nat
    requires nbucket > 0
  {
    GnuHash(s.name) % nbucket
  }

  predicate WellSized(t: Table, symbols: seq<Symbol>)
  {
    && (t.wordBits == 32 || t.wordBits == 64)
    && t.shift2 < 32 && |t.bloom| > 0 && |t.buckets| > 0
    && t.symndx <= |symbols| && |t.chain| == |symbols| - t.symndx
  }

  /**
   What the table must record about the hashed symbol `i`: two bits in the Bloom word of its hash, its chain word, and
   the start of its bucket, which is contiguous.
   */
  ghost predicate Records(t: Table, symbols: seq<Symbol>, i: nat)
    requires WellSized(t, symbols) && t.symndx <= i < |symbols|
  {
    var h := GnuHash(symbols[i].name);
    var word := t.bloom[h / t.wordBits % |t.bloom|];
    var start := t.buckets[h % |t.buckets|];
    && h % t.wordBits in word && h / Pow2(t.shift2) % t.wordBits in word
    && t.chain[i - t.symndx] / 2 == h / 2
    && (t.chain[i - t.symndx] % 2 == 1 <==>
        i + 1 == |symbols| || Bucket(symbols[i + 1], |t.buckets|) != Bucket(symbols[i], |t.buckets|))
    && t.symndx <= start <= i
    && (forall k :: start <= k <= i ==> Bucket(symbols[k], |t.buckets|) == Bucket(symbols[i], |t.buckets|))
  }

  /** A start index below `symndx` marks an empty bucket; any other one points into its own bucket. */
  ghost predicate WellFormed(t: Table, symbols: seq<Symbol>)
  {
    && WellSized(t, symbols)
    && (forall i :: t.symndx <= i < |symbols| ==> Records(t, symbols, i))
    && (forall b :: 0 <= b < |t.buckets| && t.buckets[b] >= t.symndx ==>
          t.buckets[b] < |symbols| && Bucket(symbols[t.buckets[b]], |t.buckets|) == b)
  }

  /** An image without the section keeps the zero counts it was constructed with. */
  predicate Absent(t: Table)
  {
    |t.buckets| == 0 || |t.bloom| == 0
  }

  /**
   Neither the Bloom filter nor the bucket start nor the flagged chain ever loses a symbol:
   the lookup terminates and returns what a plain scan of the hashed symbols returns.
   */
  method Lookup(t: Table, symbols: seq<Symbol>, name: Bytes, hash: Uint32) returns (r: nat)
    requires Absent(t) || WellFormed(t, symbols)
    requires hash == GnuHash(name)
    ensures Absent(t) ==> r == 0
    ensures !Absent(t) ==> r == Scan(symbols, t.symndx, name)
  {
    if |t.buckets| == 0 || |t.bloom| == 0 {
      return 0;
    }
    var mask := {hash % t.wordBits} + {hash / Pow2(t.shift2) % t.wordBits};
    if mask * t.bloom[hash / t.wordBits % |t.bloom|] == mask {
      var index := t.buckets[hash % |t.buckets|];
      if index >= t.symndx {
        ghost var start := index;
        while true
          invariant t.symndx <= start <= index < |symbols|
          invariant forall k :: start <= k <= index ==> Bucket(symbols[k], |t.buckets|) == hash % |t.buckets|
          invariant forall k :: start <= k < index ==> symbols[k].name != name
          decreases |symbols| - index
        {
          assert Records(t, symbols, index);
          ShiftedXorIsZeroIff(t.chain[index - t.symndx], hash);
          if Xor(t.chain[index - t.symndx], hash) / 2 == 0 && symbols[index].name == name {
            OnlyInBucket(t, symbols, name);
            ScanHits(symbols, t.symndx, name, index);
            return symbols[index].value;
          }
          if t.chain[index - t.symndx] % 2 != 0 {
            break;
          }
          index := index + 1;
        }
        forall i | t.symndx <= i < |symbols|
          ensures symbols[i].name != name
        {
          assert Records(t, symbols, i);
        }
      } else {
        OnlyInBucket(t, symbols, name);
      }
    } else {
      OnlyPastBloom(t, symbols, name);
    }
    ScanMisses(symbols, t.symndx, name);
    return 0;
  }

  lemma OnlyInBucket(t: Table, symbols: seq<Symbol>, name: Bytes)
    requires WellFormed(t, symbols)
    ensures forall i :: t.symndx <= i < |symbols| && symbols[i].name == name ==>
              t.symndx <= t.buckets[GnuHash(name) % |t.buckets|] <= i
  {
    forall i | t.symndx <= i < |symbols| && symbols[i].name == name
      ensures t.symndx <= t.buckets[GnuHash(name) % |t.buckets|] <= i
    {
      assert Records(t, symbols, i);
    }
  }

  lemma OnlyPastBloom(t: Table, symbols: seq<Symbol>, name: Bytes)
    requires WellFormed(t, symbols)
    requires
      var mask := Mask(t.wordBits, t.shift2, GnuHash(name));
      mask * t.bloom[GnuHash(name) / t.wordBits % |t.bloom|] != mask
    ensures !Named(symbols, t.symndx, name)
  {
    forall i | t.symndx <= i < |symbols|
      ensures symbols[i].name != name
    {
      assert Records(t, symbols, i);
    }
  }
}
