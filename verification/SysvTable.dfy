/**
 The System V hash table of an ELF image: bucket heads and linked chains of symbol indices that end at
 index 0 (section "Hash Table" of the System V gABI; loader/src/common/elf_util.cpp:105-111 and 129-141).
 */
module SysvTable {
  import opened Prelude
  import opened ElfHash
  import opened SymbolTable

  /** A table with no bucket is absent. */
  datatype Table = Table(buckets: seq<Uint32>, chain: seq<Uint32>)

  /** Following the chain from `n` stays in range and reaches 0 within `k` links. */
  predicate Ends(chain: seq<Uint32>, n: nat, k: nat)
    decreases k
  {
    n == 0 || (k > 0 && n < |chain| && Ends(chain, chain[n], k - 1))
  }

  /** Symbol `target` is among the first `k` entries of the chain that starts at `n`. */
  predicate OnChain(chain: seq<Uint32>, n: nat, k: nat, target: nat)
    decreases k
  {
    k > 0 && 0 < n < |chain| && (n == target || OnChain(chain, chain[n], k - 1, target))
  }

  ghost predicate ChainEnds(chain: seq<Uint32>, n: nat)
  {
    exists k: nat :: Ends(chain, n, k)
  }

  ghost predicate ChainHolds(chain: seq<Uint32>, n: nat, target: nat)
  {
    exists k: nat :: OnChain(chain, n, k, target)
  }

  function HeadFor(t: Table, name: Bytes): nat
    requires |t.buckets| > 0
  {
    t.buckets[SysvHashValue(name) % |t.buckets|]
  }

  /** Chains are acyclic and end at 0, and every symbol but the reserved one is on the chain of its hash. */
  ghost predicate WellFormed(t: Table, symbols: seq<Symbol>)
  {
    && |t.buckets| > 0
    && |t.chain| == |symbols|
    && (forall b :: 0 <= b < |t.buckets| ==> ChainEnds(t.chain, t.buckets[b]))
    && (forall i :: 0 < i < |symbols| ==> ChainHolds(t.chain, HeadFor(t, symbols[i].name), i))
  }

  predicate Absent(t: Table)
  {
    |t.buckets| == 0
  }

  /**
   The chain walk terminates. It answers 0 for a name no symbol carries and otherwise the value of a symbol
   that carries it; with unique names that is the answer of the plain scan.
   */
  method Lookup(t: Table, symbols: seq<Symbol>, name: Bytes, hash: int) returns (r: nat)
    requires Absent(t) || WellFormed(t, symbols)
    requires hash == SysvHashValue(name)
    ensures Absent(t) ==> r == 0
    ensures !Absent(t) && !Named(symbols, 1, name) ==> r == 0
    ensures !Absent(t) && Named(symbols, 1, name) ==>
              exists i :: 1 <= i < |symbols| && symbols[i].name == name && symbols[i].value == r
    ensures !Absent(t) && UniqueNames(symbols, 1) ==> r == Scan(symbols, 1, name)
  {
    if |t.buckets| == 0 {
      return 0;
    }
    var n: nat := t.buckets[hash % |t.buckets|];
    assert ChainEnds(t.chain, n);
    ghost var links: nat :| Ends(t.chain, n, links);
    ghost var target, depth: nat := 0, 0;
    if Named(symbols, 1, name) {
      target :| 1 <= target < |symbols| && symbols[target].name == name;
      assert ChainHolds(t.chain, HeadFor(t, symbols[target].name), target);
      depth :| OnChain(t.chain, n, depth, target);
    }
    while n != 0
      invariant Ends(t.chain, n, links)
      invariant Named(symbols, 1, name) ==> OnChain(t.chain, n, depth, target)
      decreases links
    {
      if symbols[n].name == name {
        if UniqueNames(symbols, 1) {
          ScanHits(symbols, 1, name, n);
        }
        return symbols[n].value;
      }
      n := t.chain[n];
      links := links - 1;
      depth := if depth > 0 then depth - 1 else 0;
    }
    ScanMisses(symbols, 1, name);
    return 0;
  }

  // ---------------------------------------------------------------- builder

  /** Put the next symbol at the head of chain `b`. */
  function Insert(t: Table, b: nat): Table
    requires b < |t.buckets| && |t.chain| < TWO32
  {
    Table(t.buckets[b := |t.chain|], t.chain + [t.buckets[b]])
  }

  /** Insert the symbols `1 .. m` one by one at the head of their chains. */
  function Build(symbols: seq<Symbol>, nbucket: nat, m: nat): (t: Table)
    requires nbucket > 0 && 1 <= m <= |symbols| < TWO32
    ensures |t.buckets| == nbucket && |t.chain| == m
    ensures forall b :: 0 <= b < nbucket ==> t.buckets[b] < m
    ensures forall i :: 0 < i < m ==> t.chain[i] < i
    decreases m
  {
    if m == 1 then Table(seq(nbucket, _ => 0), [0])
    else
      var t := Build(symbols, nbucket, m - 1);
      var b := SysvHashValue(symbols[m - 1].name) % nbucket;
      Insert(t, b)
  }

  lemma DecreasingChainEnds(chain: seq<Uint32>, n: nat)
    requires n == 0 || n < |chain|
    requires forall i :: 0 < i < |chain| ==> chain[i] < i
    ensures Ends(chain, n, n)
  {
    if n == 0 {
    } else {
      DecreasingChainEnds(chain, chain[n]);
      EndsWithin(chain, chain[n], chain[n], n - 1);
    }
  }

  lemma EndsWithin(chain: seq<Uint32>, n: nat, k: nat, k': nat)
    requires Ends(chain, n, k) && k <= k'
    ensures Ends(chain, n, k')
    decreases k
  {
    if n != 0 {
      EndsWithin(chain, chain[n], k - 1, k' - 1);
    }
  }

  lemma OnLongerChain(chain: seq<Uint32>, more: seq<Uint32>, n: nat, k: nat, target: nat)
    requires OnChain(chain, n, k, target)
    ensures OnChain(chain + more, n, k, target)
    decreases k
  {
    if n != target {
      OnLongerChain(chain, more, chain[n], k - 1, target);
    }
  }

  lemma InsertKeeps(t: Table, b: nat, slot: nat, i: nat)
    requires b < |t.buckets| && slot < |t.buckets| && 0 < |t.chain| < TWO32
    requires ChainHolds(t.chain, t.buckets[slot], i)
    ensures ChainHolds(Insert(t, b).chain, Insert(t, b).buckets[slot], i)
  {
    var t' := Insert(t, b);
    var k: nat :| OnChain(t.chain, t.buckets[slot], k, i);
    OnLongerChain(t.chain, [t.buckets[b]], t.buckets[slot], k, i);
    if slot == b {
      assert OnChain(t'.chain, t'.buckets[slot], k + 1, i);
    }
  }

  lemma BuiltChainHolds(symbols: seq<Symbol>, nbucket: nat, m: nat, i: nat)
    requires nbucket > 0 && 0 < i < m <= |symbols| < TWO32
    ensures
      var t := Build(symbols, nbucket, m);
      ChainHolds(t.chain, t.buckets[SysvHashValue(symbols[i].name) % nbucket], i)
    decreases m
  {
    var t := Build(symbols, nbucket, m);
    var slot := SysvHashValue(symbols[i].name) % nbucket;
    if i == m - 1 {
      assert OnChain(t.chain, t.buckets[slot], 1, i);
    } else {
      BuiltChainHolds(symbols, nbucket, m - 1, i);
      InsertKeeps(Build(symbols, nbucket, m - 1), SysvHashValue(symbols[m - 1].name) % nbucket, slot, i);
    }
  }

  lemma BuiltChainsEnd(symbols: seq<Symbol>, nbucket: nat, b: nat)
    requires nbucket > 0 && 1 <= |symbols| < TWO32 && b < nbucket
    ensures var t := Build(symbols, nbucket, |symbols|); ChainEnds(t.chain, t.buckets[b])
  {
    var t := Build(symbols, nbucket, |symbols|);
    DecreasingChainEnds(t.chain, t.buckets[b]);
    assert Ends(t.chain, t.buckets[b], t.buckets[b]);
  }

  /** Every symbol list has a well-formed table. */
  lemma BuiltTableIsWellFormed(symbols: seq<Symbol>, nbucket: nat)
    requires nbucket > 0 && 1 <= |symbols| < TWO32
    ensures WellFormed(Build(symbols, nbucket, |symbols|), symbols)
  {
    forall b | 0 <= b < nbucket {
      BuiltChainsEnd(symbols, nbucket, b);
    }
    forall i | 0 < i < |symbols| {
      BuiltChainHolds(symbols, nbucket, |symbols|, i);
    }
  }
}
