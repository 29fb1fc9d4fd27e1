/** ELF symbols and the plain scan that every index over them must agree with. */
module SymbolTable {
  import opened Prelude

  const STT_OBJECT: nat := 1
  const STT_FUNC: nat := 2

  /** A symbol with its name already read from the string table. */
  datatype Symbol = Symbol(name: Bytes, value: nat, size: nat, symType: nat)

  /** The value of the lowest-index symbol at or after `from` that carries the name, or 0. */
  function Scan(symbols: seq<Symbol>, from: nat, name: Bytes): nat
    decreases |symbols| - from
  {
    if from >= |symbols| then 0
    else if symbols[from].name == name then symbols[from].value
    else Scan(symbols, from + 1, name)
  }

  ghost predicate Named(symbols: seq<Symbol>, from: nat, name: Bytes)
  {
    exists i :: from <= i < |symbols| && symbols[i].name == name
  }

  ghost predicate UniqueNames(symbols: seq<Symbol>, from: nat)
  {
    forall i, j :: from <= i < j < |symbols| ==> symbols[i].name != symbols[j].name
  }

  lemma ScanMisses(symbols: seq<Symbol>, from: nat, name: Bytes)
    requires !Named(symbols, from, name)
    ensures Scan(symbols, from, name) == 0
    decreases |symbols| - from
  {
    if from >= |symbols| {
    } else {
      ScanMisses(symbols, from + 1, name);
    }
  }

  lemma ScanHits(symbols: seq<Symbol>, from: nat, name: Bytes, i: nat)
    requires from <= i < |symbols| && symbols[i].name == name
    requires forall k :: from <= k < i ==> symbols[k].name != name
    ensures Scan(symbols, from, name) == symbols[i].value
    decreases i - from
  {
    if from == i {
    } else {
      ScanHits(symbols, from + 1, name, i);
    }
  }

  /** A non-zero answer names a symbol that carries it. */
  lemma ScanIsSound(symbols: seq<Symbol>, from: nat, name: Bytes)
    requires Scan(symbols, from, name) != 0
    ensures
      var value := Scan(symbols, from, name);
      exists i :: from <= i < |symbols| && symbols[i].name == name && symbols[i].value == value
    decreases |symbols| - from
  {
    if symbols[from].name != name {
      ScanIsSound(symbols, from + 1, name);
    }
  }
}
