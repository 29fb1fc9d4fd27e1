/**
 Symbol lookup in one ELF image: two hash tables and a lazily filled name map
 (loader/src/common/elf_util.cpp:168-216).
 */
module ElfImage {
  import opened Prelude
  import opened ElfHash
  import opened SymbolTable
  import GnuTable
  import SysvTable

  /** Only sized functions and objects of the full symbol table take part. */
  predicate Sized(s: Symbol)
  {
    (s.symType == STT_FUNC || s.symType == STT_OBJECT) && s.size != 0
  }

  function SizedSymbols(symtab: seq<Symbol>): seq<Symbol>
  {
    if symtab == [] then []
    else
      SizedSymbols(symtab[..|symtab| - 1]) +
      if Sized(symtab[|symtab| - 1]) then [symtab[|symtab| - 1]] else []
  }

  /** The first of the sized symbols wins, as with `unordered_map::emplace`. */
  ghost predicate Indexes(index: map<Bytes, nat>, symtab: seq<Symbol>)
  {
    && (forall name :: name in index ==>
          && index[name] < |symtab|
          && Named(SizedSymbols(symtab), 0, name)
          && symtab[index[name]].value == Scan(SizedSymbols(symtab), 0, name))
    && (forall name :: Named(SizedSymbols(symtab), 0, name) ==> name in index)
  }

  lemma ScanAppend(symbols: seq<Symbol>, s: Symbol, from: nat, name: Bytes)
    requires from <= |symbols|
    ensures Named(symbols + [s], from, name) <==> Named(symbols, from, name) || s.name == name
    ensures Scan(symbols + [s], from, name) ==
            if Named(symbols, from, name) then Scan(symbols, from, name) else if s.name == name then s.value else 0
    decreases |symbols| - from
  {
    var all := symbols + [s];
    assert all[|symbols|] == s;
    assert forall i :: 0 <= i < |symbols| ==> all[i] == symbols[i];
    if from < |symbols| {
      ScanAppend(symbols, s, from + 1, name);
      assert Named(symbols, from, name) <==> symbols[from].name == name || Named(symbols, from + 1, name);
    } else {
      assert Scan(all, from + 1, name) == 0;
    }
  }

  lemma IndexStep(index: map<Bytes, nat>, symtab: seq<Symbol>, n: nat)
    requires n < |symtab| && Indexes(index, symtab[..n])
    ensures
      var s := symtab[n];
      Indexes(if Sized(s) && s.name !in index then index[s.name := n] else index, symtab[..n + 1])
  {
    var s := symtab[n];
    var before, after := symtab[..n], symtab[..n + 1];
    assert after[..n] == before && after[n] == s;
    if Sized(s) {
      assert SizedSymbols(after) == SizedSymbols(before) + [s];
      forall name
        ensures Named(SizedSymbols(after), 0, name) <==> Named(SizedSymbols(before), 0, name) || s.name == name
        ensures Scan(SizedSymbols(after), 0, name) ==
                if Named(SizedSymbols(before), 0, name) then Scan(SizedSymbols(before), 0, name)
                else if s.name == name then s.value else 0
      {
        ScanAppend(SizedSymbols(before), s, 0, name);
      }
    } else {
      assert SizedSymbols(after) == SizedSymbols(before);
    }
  }

  /** The lowest index of a function or object with a size that carries the name. */
  ghost predicate FirstSized(symtab: seq<Symbol>, name: Bytes, i: nat)
  {
    && i < |symtab| && IsSizedFor(symtab[i], name)
    && forall k :: 0 <= k < i ==> !IsSizedFor(symtab[k], name)
  }

  predicate IsSizedFor(s: Symbol, name: Bytes)
  {
    s.name == name && s.size > 0 && (s.symType == 1 || s.symType == 2)
  }

  ghost predicate NoneSized(symtab: seq<Symbol>, name: Bytes)
  {
    forall i :: 0 <= i < |symtab| ==> !IsSizedFor(symtab[i], name)
  }

  lemma SizedStep(symtab: seq<Symbol>)
    requires symtab != []
    ensures
      var n := |symtab| - 1;
      var before := SizedSymbols(symtab[..n]);
      SizedSymbols(symtab) == if Sized(symtab[n]) then before + [symtab[n]] else before
  {
  }

  lemma {:induction false} NamedIffSized(symtab: seq<Symbol>, name: Bytes)
    ensures Named(SizedSymbols(symtab), 0, name) <==> !NoneSized(symtab, name)
  {
    if symtab == [] {
    } else {
      var n := |symtab| - 1;
      var before := symtab[..n];
      NamedIffSized(before, name);
      SizedStep(symtab);
      assert symtab == before + [symtab[n]];
      assert NoneSized(symtab, name) <==> NoneSized(before, name) && !IsSizedFor(symtab[n], name);
      if Sized(symtab[n]) {
        ScanAppend(SizedSymbols(before), symtab[n], 0, name);
      }
    }
  }

  /** The scan of the sized symbols answers for the first of them. */
  lemma {:induction false} SizedScanIs(symtab: seq<Symbol>, name: Bytes, i: nat)
    requires FirstSized(symtab, name, i)
    ensures Scan(SizedSymbols(symtab), 0, name) == symtab[i].value
  {
    var n := |symtab| - 1;
    var before := symtab[..n];
    SizedStep(symtab);
    NamedIffSized(before, name);
    if Sized(symtab[n]) {
      ScanAppend(SizedSymbols(before), symtab[n], 0, name);
    }
    if i < n {
      assert FirstSized(before, name, i) && !NoneSized(before, name);
      SizedScanIs(before, name, i);
    } else {
      assert NoneSized(before, name);
    }
  }

  ghost predicate HoldsNonZero(symbols: seq<Symbol>, from: nat, name: Bytes)
  {
    exists i :: from <= i < |symbols| && symbols[i].name == name && symbols[i].value != 0
  }

  class ElfImg {
    const dynsym: seq<Symbol>
    const gnu: GnuTable.Table
    const sysv: SysvTable.Table
    const symtab: seq<Symbol>
    const hasSymtab: bool
    var symtabs: map<Bytes, nat>

    constructor (dynsym: seq<Symbol>, gnu: GnuTable.Table, sysv: SysvTable.Table, symtab: seq<Symbol>, hasSymtab: bool)
      requires GnuTable.Absent(gnu) || GnuTable.WellFormed(gnu, dynsym)
      requires SysvTable.Absent(sysv) || SysvTable.WellFormed(sysv, dynsym)
      ensures Valid() && symtabs == map[]
      ensures this.dynsym == dynsym && this.gnu == gnu && this.sysv == sysv
      ensures this.symtab == symtab && this.hasSymtab == hasSymtab
    {
      this.dynsym, this.gnu, this.sysv, this.symtab, this.hasSymtab := dynsym, gnu, sysv, symtab, hasSymtab;
      symtabs := map[];
    }

    /** The name map is empty or complete, never partly filled. */
    ghost predicate Valid()
      reads this
    {
      && (GnuTable.Absent(gnu) || GnuTable.WellFormed(gnu, dynsym))
      && (SysvTable.Absent(sysv) || SysvTable.WellFormed(sysv, dynsym))
      && (symtabs == map[] || (hasSymtab && Indexes(symtabs, symtab)))
    }

    ghost function LinearAnswer(name: Bytes): nat
    {
      if hasSymtab then Scan(SizedSymbols(symtab), 0, name) else 0
    }

    ghost function GnuAnswer(name: Bytes): nat
    {
      if GnuTable.Absent(gnu) then 0 else Scan(dynsym, gnu.symndx, name)
    }

    ghost function SysvAnswer(name: Bytes): nat
    {
      if SysvTable.Absent(sysv) then 0 else Scan(dynsym, 1, name)
    }

    /** Names are unique within each table that is searched. */
    ghost predicate UniquePerTable()
    {
      && (!GnuTable.Absent(gnu) ==> UniqueNames(dynsym, gnu.symndx))
      && (!SysvTable.Absent(sysv) ==> UniqueNames(dynsym, 1))
      && UniqueNames(SizedSymbols(symtab), 0)
    }

    /** Some table that is searched holds the name with a non-zero value. */
    ghost predicate Held(name: Bytes)
    {
      || (!GnuTable.Absent(gnu) && HoldsNonZero(dynsym, gnu.symndx, name))
      || (!SysvTable.Absent(sysv) && HoldsNonZero(dynsym, 1, name))
      || (hasSymtab && HoldsNonZero(SizedSymbols(symtab), 0, name))
    }

    lemma LinearAnswerIs(name: Bytes)
      ensures hasSymtab ==> forall i: nat :: FirstSized(symtab, name, i) ==> LinearAnswer(name) == symtab[i].value
      ensures !hasSymtab || NoneSized(symtab, name) ==> LinearAnswer(name) == 0
    {
      NamedIffSized(symtab, name);
      if NoneSized(symtab, name) {
        ScanMisses(SizedSymbols(symtab), 0, name);
      }
      forall i: nat | FirstSized(symtab, name, i)
        ensures Scan(SizedSymbols(symtab), 0, name) == symtab[i].value
      {
        SizedScanIs(symtab, name, i);
      }
    }

    /**
     The answer is that of an uncached scan, whatever was looked up before: the value of the first function or object
     with a size that carries the name, or 0.
     */
    method LinearLookup(name: Bytes) returns (r: nat)
      requires Valid()
      modifies this`symtabs
      ensures Valid()
      ensures r == LinearAnswer(name)
      ensures hasSymtab ==> forall i: nat :: FirstSized(symtab, name, i) ==> r == symtab[i].value
      ensures !hasSymtab || NoneSized(symtab, name) ==> r == 0
    {
      if symtabs == map[] && hasSymtab {
        FillIndex();
      }
      LinearAnswerIs(name);
      if name in symtabs {
        r := symtab[symtabs[name]].value;
      } else {
        r := 0;
        if hasSymtab {
          ScanMisses(SizedSymbols(symtab), 0, name);
        }
      }
    }

    /** Enter the sized symbols one after the other, the first of a name winning. */
    method FillIndex()
      requires symtabs == map[]
      modifies this`symtabs
      ensures Indexes(symtabs, symtab)
    {
      assert symtab[..0] == [];
      for i := 0 to |symtab|
        invariant Indexes(symtabs, symtab[..i])
      {
        IndexStep(symtabs, symtab, i);
        var s := symtab[i];
        if Sized(s) && s.name !in symtabs {
          symtabs := symtabs[s.name := i];
        }
      }
      assert symtab[..|symtab|] == symtab;
    }

    /**
     The GNU table is asked first, then the System V table, then the full symbol table. With unique names per
     table the answer is 0 exactly when no table holds the name with a non-zero value.
     */
    method GetSymbOffset(name: Bytes) returns (r: nat)
      requires Valid()
      modifies this`symtabs
      ensures Valid()
      ensures r != 0 ==> Held(name)
      ensures UniquePerTable() ==> (r == 0 <==> !Held(name))
      ensures UniquePerTable() ==>
                r == (if GnuAnswer(name) != 0 then GnuAnswer(name)
                      else if SysvAnswer(name) != 0 then SysvAnswer(name)
                      else LinearAnswer(name))
    {
      var gnuHash := ComputeGnuHash(name);
      var sysvHash := ComputeSysvHash(name);
      if UniquePerTable() {
        AnswersDecideHeld(this, name);
      }
      r := GnuTable.Lookup(gnu, dynsym, name, gnuHash);
      if r > 0 {
        ScanIsSound(dynsym, gnu.symndx, name);
        return;
      }
      r := SysvTable.Lookup(sysv, dynsym, name, sysvHash.bits as int);
      if r > 0 {
        return;
      }
      r := LinearLookup(name);
      if r > 0 {
        ScanIsSound(SizedSymbols(symtab), 0, name);
        return;
      }
      return 0;
    }
  }

  lemma UniqueScanIsExact(symbols: seq<Symbol>, from: nat, name: Bytes)
    requires UniqueNames(symbols, from)
    ensures Scan(symbols, from, name) != 0 <==> HoldsNonZero(symbols, from, name)
  {
    if Scan(symbols, from, name) != 0 {
      ScanIsSound(symbols, from, name);
    }
    if HoldsNonZero(symbols, from, name) {
      var i :| from <= i < |symbols| && symbols[i].name == name && symbols[i].value != 0;
      ScanHits(symbols, from, name, i);
    }
  }

  lemma AnswersDecideHeld(img: ElfImg, name: Bytes)
    requires img.UniquePerTable()
    ensures img.Held(name) <==> img.GnuAnswer(name) != 0 || img.SysvAnswer(name) != 0 || img.LinearAnswer(name) != 0
  {
    if !GnuTable.Absent(img.gnu) {
      UniqueScanIsExact(img.dynsym, img.gnu.symndx, name);
    }
    if !SysvTable.Absent(img.sysv) {
      UniqueScanIsExact(img.dynsym, 1, name);
    }
    UniqueScanIsExact(SizedSymbols(img.symtab), 0, name);
  }

  /** With unique names both hash tables give every GNU-hashed symbol its own value. */
  method HashTablesAgree(symbols: seq<Symbol>, gnu: GnuTable.Table, sysv: SysvTable.Table, i: nat)
    returns (g: nat, e: nat)
    requires !GnuTable.Absent(gnu) && GnuTable.WellFormed(gnu, symbols)
    requires !SysvTable.Absent(sysv) && SysvTable.WellFormed(sysv, symbols)
    requires UniqueNames(symbols, 1)
    requires 1 <= gnu.symndx <= i < |symbols|
    ensures g == e == symbols[i].value
  {
    var gnuHash := ComputeGnuHash(symbols[i].name);
    var sysvHash := ComputeSysvHash(symbols[i].name);
    g := GnuTable.Lookup(gnu, symbols, symbols[i].name, gnuHash);
    e := SysvTable.Lookup(sysv, symbols, symbols[i].name, sysvHash.bits as int);
    ScanHits(symbols, gnu.symndx, symbols[i].name, i);
    ScanHits(symbols, 1, symbols[i].name, i);
  }
}
