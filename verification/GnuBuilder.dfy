/**
 A linker-side construction of the GNU hash table: group the symbols by bucket, then fill in the
 filter, the bucket starts and the flagged chain. It shows that every symbol list has a well-formed table.
 */
module GnuBuilder {
  import opened Prelude
  import opened ElfHash
  import opened SymbolTable
  import opened GnuTable

  /** The symbols whose bucket is exactly `b`, in order. */
  function InBucket(list: seq<Symbol>, nbucket: nat, b: nat): seq<Symbol>
    requires nbucket > 0
  {
    if list == [] then []
    else (if Bucket(list[0], nbucket) == b then [list[0]] else []) + InBucket(list[1..], nbucket, b)
  }

  /** The symbols whose bucket is at least `b`, in order. */
  function FromBucket(list: seq<Symbol>, nbucket: nat, b: nat): seq<Symbol>
    requires nbucket > 0
  {
    if list == [] then []
    else (if Bucket(list[0], nbucket) >= b then [list[0]] else []) + FromBucket(list[1..], nbucket, b)
  }

  /** The buckets `b`, `b + 1`, ... one after the other. */
  function Grouped(list: seq<Symbol>, nbucket: nat, b: nat): seq<Symbol>
    requires nbucket > 0
    decreases nbucket - b
  {
    if b >= nbucket then [] else InBucket(list, nbucket, b) + Grouped(list, nbucket, b + 1)
  }

  predicate SortedByBucket(g: seq<Symbol>, nbucket: nat)
    requires nbucket > 0
  {
    forall i, j :: 0 <= i < j < |g| ==> Bucket(g[i], nbucket) <= Bucket(g[j], nbucket)
  }

  lemma InBucketOnly(list: seq<Symbol>, nbucket: nat, b: nat)
    requires nbucket > 0
    ensures forall s :: s in InBucket(list, nbucket, b) ==> Bucket(s, nbucket) == b
  {
  }

  lemma GroupedIsSorted(list: seq<Symbol>, nbucket: nat, b: nat)
    requires nbucket > 0
    ensures SortedByBucket(Grouped(list, nbucket, b), nbucket)
    ensures forall s :: s in Grouped(list, nbucket, b) ==> Bucket(s, nbucket) >= b
    decreases nbucket - b
  {
    if b >= nbucket {
    } else {
      GroupedIsSorted(list, nbucket, b + 1);
      InBucketOnly(list, nbucket, b);
      var first, rest := InBucket(list, nbucket, b), Grouped(list, nbucket, b + 1);
      forall i | 0 <= i < |first + rest|
        ensures if i < |first| then Bucket((first + rest)[i], nbucket) == b else Bucket((first + rest)[i], nbucket) > b
      {
        if i < |first| {
          assert first[i] in first;
        } else {
          assert rest[i - |first|] in rest;
        }
      }
    }
  }

  lemma SplitBucket(list: seq<Symbol>, nbucket: nat, b: nat)
    requires nbucket > 0
    ensures multiset(FromBucket(list, nbucket, b)) ==
            multiset(InBucket(list, nbucket, b)) + multiset(FromBucket(list, nbucket, b + 1))
  {
    if list == [] {
    } else {
      SplitBucket(list[1..], nbucket, b);
    }
  }

  lemma BucketRange(list: seq<Symbol>, nbucket: nat)
    requires nbucket > 0
    ensures FromBucket(list, nbucket, 0) == list
    ensures FromBucket(list, nbucket, nbucket) == []
  {
    if list == [] {
    } else {
      BucketRange(list[1..], nbucket);
      assert list == [list[0]] + list[1..];
    }
  }

  lemma GroupedKeeps(list: seq<Symbol>, nbucket: nat, b: nat)
    requires nbucket > 0 && b <= nbucket
    ensures multiset(Grouped(list, nbucket, b)) == multiset(FromBucket(list, nbucket, b))
    decreases nbucket - b
  {
    BucketRange(list, nbucket);
    if b >= nbucket {
    } else {
      SplitBucket(list, nbucket, b);
      GroupedKeeps(list, nbucket, b + 1);
    }
  }

  /** The first index at or after `from` in bucket `b`, or the length. */
  function FirstIn(g: seq<Symbol>, nbucket: nat, b: nat, from: nat): (i: nat)
    requires nbucket > 0 && from <= |g|
    ensures from <= i <= |g|
    ensures i < |g| ==> Bucket(g[i], nbucket) == b
    ensures forall k :: from <= k < i ==> Bucket(g[k], nbucket) != b
    decreases |g| - from
  {
    if from == |g| || Bucket(g[from], nbucket) == b then from else FirstIn(g, nbucket, b, from + 1)
  }

  /** The union of the masks that fall into Bloom word `w`. */
  function BloomWord(g: seq<Symbol>, wordBits: nat, shift2: nat, size: nat, w: nat): Bits
    requires wordBits == 32 || wordBits == 64
    requires size > 0
  {
    if g == [] then {}
    else
      var h := GnuHash(g[0].name);
      BloomWord(g[1..], wordBits, shift2, size, w) +
      (if h / wordBits % size == w then Mask(wordBits, shift2, h) else {})
  }

  lemma BloomCovers(g: seq<Symbol>, wordBits: nat, shift2: nat, size: nat, i: nat)
    requires wordBits == 32 || wordBits == 64
    requires size > 0 && i < |g|
    ensures
      var h := GnuHash(g[i].name);
      var mask := Mask(wordBits, shift2, h);
      mask <= BloomWord(g, wordBits, shift2, size, h / wordBits % size)
  {
    if i == 0 {
    } else {
      BloomCovers(g[1..], wordBits, shift2, size, i - 1);
    }
  }

  function LastOfBucket(g: seq<Symbol>, nbucket: nat, i: nat): nat
    requires nbucket > 0 && i < |g|
  {
    if i + 1 == |g| || Bucket(g[i + 1], nbucket) != Bucket(g[i], nbucket) then 1 else 0
  }

  /** The start index of bucket `b`, or 0 if it is empty. */
  function StartOf(g: seq<Symbol>, nbucket: nat, symndx: nat, b: nat): Uint32
    requires nbucket > 0 && symndx + |g| < TWO32
  {
    var i := FirstIn(g, nbucket, b, 0);
    if i == |g| then 0 else symndx + i
  }

  function ChainWord(g: seq<Symbol>, nbucket: nat, i: nat): Uint32
    requires nbucket > 0 && i < |g|
  {
    GnuHash(g[i].name) / 2 * 2 + LastOfBucket(g, nbucket, i)
  }

  /** The table for symbols already grouped by bucket, placed after `symndx` unhashed ones. */
  function TableFor(g: seq<Symbol>, nbucket: nat, bloomSize: nat, wordBits: nat, shift2: nat, symndx: nat): Table
    requires nbucket > 0 && bloomSize > 0 && symndx + |g| < TWO32
    requires wordBits == 32 || wordBits == 64
  {
    Table(
      wordBits, shift2,
      seq(bloomSize, w requires 0 <= w => BloomWord(g, wordBits, shift2, bloomSize, w)),
      seq(nbucket, b requires 0 <= b => StartOf(g, nbucket, symndx, b)),
      symndx,
      seq(|g|, i requires 0 <= i < |g| => ChainWord(g, nbucket, i)))
  }

  /**
   For every list of symbols after at least one unhashed symbol (the reserved null symbol), the construction
   keeps exactly those symbols and yields a well-formed table.
   */
  lemma BuiltTableIsWellFormed(
    head: seq<Symbol>, list: seq<Symbol>, nbucket: nat, bloomSize: nat, wordBits: nat, shift2: nat)
    requires nbucket > 0 && bloomSize > 0 && |head| > 0 && |head| + |list| < TWO32
    requires (wordBits == 32 || wordBits == 64) && shift2 < 32
    ensures
      var g := Grouped(list, nbucket, 0);
      && multiset(g) == multiset(list)
      && |g| == |list|
      && WellFormed(TableFor(g, nbucket, bloomSize, wordBits, shift2, |head|), head + g)
  {
    var g := Grouped(list, nbucket, 0);
    GroupedIsSorted(list, nbucket, 0);
    GroupedKeeps(list, nbucket, 0);
    BucketRange(list, nbucket);
    assert |g| == |multiset(g)| == |multiset(list)| == |list|;
    SortedTableIsWellFormed(head, g, nbucket, bloomSize, wordBits, shift2);
  }

  lemma SortedTableIsWellFormed(
    head: seq<Symbol>, g: seq<Symbol>, nbucket: nat, bloomSize: nat, wordBits: nat, shift2: nat)
    requires nbucket > 0 && bloomSize > 0 && |head| > 0 && |head| + |g| < TWO32
    requires (wordBits == 32 || wordBits == 64) && shift2 < 32
    requires SortedByBucket(g, nbucket)
    ensures WellFormed(TableFor(g, nbucket, bloomSize, wordBits, shift2, |head|), head + g)
  {
    var t := TableFor(g, nbucket, bloomSize, wordBits, shift2, |head|);
    var symbols := head + g;
    forall i | t.symndx <= i < |symbols|
      ensures Records(t, symbols, i)
    {
      BuiltEntry(head, g, nbucket, bloomSize, wordBits, shift2, i);
    }
    forall b | 0 <= b < nbucket && t.buckets[b] >= t.symndx
      ensures t.buckets[b] < |symbols| && Bucket(symbols[t.buckets[b]], |t.buckets|) == b
    {
      var i := FirstIn(g, nbucket, b, 0);
      assert symbols[|head| + i] == g[i];
    }
  }

  /** In a grouped list the symbols from the first of a bucket up to any other of it are all in that bucket. */
  lemma BucketIsContiguous(g: seq<Symbol>, nbucket: nat, j: nat)
    requires nbucket > 0 && SortedByBucket(g, nbucket) && j < |g|
    ensures
      var first := FirstIn(g, nbucket, Bucket(g[j], nbucket), 0);
      first <= j && forall k :: first <= k <= j ==> Bucket(g[k], nbucket) == Bucket(g[j], nbucket)
  {
    var first := FirstIn(g, nbucket, Bucket(g[j], nbucket), 0);
    assert first <= j;
  }

  lemma ChainWordIsHash(g: seq<Symbol>, nbucket: nat, j: nat)
    requires nbucket > 0 && j < |g|
    ensures ChainWord(g, nbucket, j) / 2 == GnuHash(g[j].name) / 2
    ensures ChainWord(g, nbucket, j) % 2 == LastOfBucket(g, nbucket, j)
  {
  }

  lemma BuiltEntry(
    head: seq<Symbol>, g: seq<Symbol>, nbucket: nat, bloomSize: nat, wordBits: nat, shift2: nat, i: nat)
    requires nbucket > 0 && bloomSize > 0 && |head| > 0 && |head| + |g| < TWO32
    requires (wordBits == 32 || wordBits == 64) && shift2 < 32
    requires SortedByBucket(g, nbucket)
    requires |head| <= i < |head| + |g|
    ensures
      var t := TableFor(g, nbucket, bloomSize, wordBits, shift2, |head|);
      WellSized(t, head + g) && Records(t, head + g, i)
  {
    var t := TableFor(g, nbucket, bloomSize, wordBits, shift2, |head|);
    var symbols := head + g;
    var j := i - |head|;
    assert symbols[i] == g[j];
    BloomCovers(g, wordBits, shift2, bloomSize, j);
    BucketIsContiguous(g, nbucket, j);
    ChainWordIsHash(g, nbucket, j);
    var start := t.buckets[Bucket(g[j], nbucket)];
    forall k | start <= k <= i
      ensures Bucket(symbols[k], |t.buckets|) == Bucket(g[j], nbucket)
    {
      assert symbols[k] == g[k - |head|];
    }
    if i + 1 < |symbols| {
      assert symbols[i + 1] == g[j + 1];
    }
  }
}
