/** The section-header scan of the ElfImg constructor (loader/src/common/elf_util.cpp:64-127). */
module SectionScan {
  import opened Prelude

  datatype Kind = Dynsym | Symtab | Strtab | Progbits | SysvHash | GnuHash | Other

  datatype Section = Section(kind: Kind, name: string, addr: int, offset: nat)

  /** The initial value of `bias`, which the constructor also reads as "not fixed yet". */
  const UNSET_BIAS: int := -4396

  /** The last section before `end` of the given kind. */
  function LastOf(sections: seq<Section>, end: nat, kind: Kind): Option<nat>
    requires end <= |sections|
  {
    if end == 0 then None
    else if sections[end - 1].kind == kind then Some(end - 1)
    else LastOf(sections, end - 1, kind)
  }

  /** The last section before `end` of the given kind and name. */
  function LastNamed(sections: seq<Section>, end: nat, kind: Kind, name: string): Option<nat>
    requires end <= |sections|
  {
    if end == 0 then None
    else if sections[end - 1].kind == kind && sections[end - 1].name == name then Some(end - 1)
    else LastNamed(sections, end - 1, kind, name)
  }

  /** A PROGBITS section preceded by both a dynamic symbol table and a string table. */
  predicate Eligible(sections: seq<Section>, k: nat)
    requires k < |sections|
  {
    && sections[k].kind == Progbits
    && LastOf(sections, k, Dynsym).Some?
    && LastOf(sections, k, Strtab).Some?
  }

  function BiasOf(s: Section): int
  {
    s.addr - s.offset
  }

  /** The section that fixes the bias: the first eligible one whose bias is not the sentinel; or the end. */
  function FreezePoint(sections: seq<Section>, from: nat): (k: nat)
    requires from <= |sections|
    ensures from <= k <= |sections|
    ensures k < |sections| ==> Eligible(sections, k) && BiasOf(sections[k]) != UNSET_BIAS
    ensures forall i :: from <= i < k ==> !Eligible(sections, i) || BiasOf(sections[i]) == UNSET_BIAS
    decreases |sections| - from
  {
    if from == |sections| || (Eligible(sections, from) && BiasOf(sections[from]) != UNSET_BIAS) then from
    else FreezePoint(sections, from + 1)
  }

  class Headers {
    var bias: int
    var dynsym: Option<nat>
    var strtab: Option<nat>
    var symtab: Option<nat>
    var symtabStrings: Option<nat>
    var sysvHash: Option<nat>
    var gnuHash: Option<nat>

    /**
     The bias comes from the freeze point, and the dynamic symbol and string tables are the last ones
     before it, whatever follows; the other tables are the last ones of the whole file.
     */
    constructor (sections: seq<Section>)
      ensures
        var k := FreezePoint(sections, 0);
        && (if k < |sections| then bias + sections[k].offset == sections[k].addr else bias == UNSET_BIAS)
        && dynsym == LastOf(sections, k, Dynsym)
        && strtab == LastOf(sections, k, Strtab)
      ensures symtab == LastNamed(sections, |sections|, Symtab, ".symtab")
      ensures symtabStrings == LastNamed(sections, |sections|, Strtab, ".strtab")
      ensures sysvHash == LastOf(sections, |sections|, SysvHash)
      ensures gnuHash == LastOf(sections, |sections|, GnuHash)
    {
      bias, dynsym, strtab, symtab, symtabStrings, sysvHash, gnuHash := UNSET_BIAS, None, None, None, None, None, None;
      new;
      ghost var k := FreezePoint(sections, 0);
      for i := 0 to |sections|
        invariant bias == (if k < i then BiasOf(sections[k]) else UNSET_BIAS)
        invariant dynsym == LastOf(sections, if k < i then k else i, Dynsym)
        invariant strtab == LastOf(sections, if k < i then k else i, Strtab)
        invariant symtab == LastNamed(sections, i, Symtab, ".symtab")
        invariant symtabStrings == LastNamed(sections, i, Strtab, ".strtab")
        invariant sysvHash == LastOf(sections, i, SysvHash)
        invariant gnuHash == LastOf(sections, i, GnuHash)
      {
        var section := sections[i];
        match section.kind {
          case Dynsym =>
            if bias == UNSET_BIAS {
              dynsym := Some(i);
            }
          case Symtab =>
            if section.name == ".symtab" {
              symtab := Some(i);
            }
          case Strtab =>
            if bias == UNSET_BIAS {
              strtab := Some(i);
            }
            if section.name == ".strtab" {
              symtabStrings := Some(i);
            }
          case Progbits =>
            if strtab.Some? && dynsym.Some? && bias == UNSET_BIAS {
              bias := BiasOf(section);
            }
          case SysvHash =>
            sysvHash := Some(i);
          case GnuHash =>
            gnuHash := Some(i);
          case Other =>
        }
      }
    }
  }

  /** The kept section is of that kind, and none after it before `end` is. */
  lemma {:induction false} LastOfIsLast(sections: seq<Section>, end: nat, kind: Kind)
    requires end <= |sections|
    ensures match LastOf(sections, end, kind)
            case Some(k) => k < end && sections[k].kind == kind && forall i :: k < i < end ==> sections[i].kind != kind
            case None => forall i :: 0 <= i < end ==> sections[i].kind != kind
  {
    if end == 0 {
    } else {
      LastOfIsLast(sections, end - 1, kind);
    }
  }

  lemma {:induction false} LastNamedIsLast(sections: seq<Section>, end: nat, kind: Kind, name: string)
    requires end <= |sections|
    ensures match LastNamed(sections, end, kind, name)
            case Some(k) =>
              && k < end && sections[k].kind == kind && sections[k].name == name
              && forall i :: k < i < end ==> !(sections[i].kind == kind && sections[i].name == name)
            case None => forall i :: 0 <= i < end ==> !(sections[i].kind == kind && sections[i].name == name)
  {
    if end == 0 {
    } else {
      LastNamedIsLast(sections, end - 1, kind, name);
    }
  }

  /** Once a section has fixed the bias, no sections appended after it change what was kept. */
  lemma {:induction false} LaterSectionsDoNotMatter(sections: seq<Section>, more: seq<Section>, from: nat)
    requires from <= |sections|
    requires FreezePoint(sections, from) < |sections|
    ensures
      var k := FreezePoint(sections, from);
      && FreezePoint(sections + more, from) == k
      && LastOf(sections + more, k, Dynsym) == LastOf(sections, k, Dynsym)
      && LastOf(sections + more, k, Strtab) == LastOf(sections, k, Strtab)
    decreases |sections| - from
  {
    var k := FreezePoint(sections, from);
    SamePrefix(sections, more, from, Dynsym);
    SamePrefix(sections, more, from, Strtab);
    if k == from {
    } else {
      LaterSectionsDoNotMatter(sections, more, from + 1);
    }
    SamePrefix(sections, more, k, Dynsym);
    SamePrefix(sections, more, k, Strtab);
  }

  lemma SamePrefix(sections: seq<Section>, more: seq<Section>, end: nat, kind: Kind)
    requires end <= |sections|
    ensures LastOf(sections + more, end, kind) == LastOf(sections, end, kind)
  {
  }

  /** When no eligible section has the sentinel bias, the first eligible section is the one that fixes it. */
  lemma FirstEligibleFixesBias(sections: seq<Section>, k: nat)
    requires k < |sections| && Eligible(sections, k)
    requires forall i :: 0 <= i < k ==> !Eligible(sections, i)
    ensures FreezePoint(sections, 0) == k <==> BiasOf(sections[k]) != UNSET_BIAS
  {
  }

  /** An image whose only code section has the sentinel bias: the bias is never fixed. */
  lemma SentinelBiasIsNotFixed()
    ensures
      var sections := [Section(Dynsym, ".dynsym", 0, 0), Section(Strtab, ".dynstr", 0, 0),
        Section(Progbits, ".text", 0, 4396)];
      Eligible(sections, 2) && FreezePoint(sections, 0) == |sections|
  {
    var sections := [Section(Dynsym, ".dynsym", 0, 0), Section(Strtab, ".dynstr", 0, 0),
      Section(Progbits, ".text", 0, 4396)];
    assert LastOf(sections, 1, Dynsym) == Some(0) && LastOf(sections, 2, Strtab) == Some(1);
    assert FreezePoint(sections, 3) == 3;
  }
}
