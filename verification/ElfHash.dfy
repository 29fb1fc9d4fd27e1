/**
 The two symbol-name hashes of the ELF image (loader/src/include/elf_util.h).
 Each is computed by a loop over the bytes of the name and is proved equal to a
 reference definition that does not share the loop's arithmetic.
 */
module ElfHash {
  import opened Prelude

  // ------------------------------------------------------------- SysV hash

  /** A 32-bit machine word. */
  datatype Word = Word(bits: bv32)

  function ShiftIn(h: Word, c: Byte): Word
  {
    Word((h.bits << 4) + c as bv32)
  }

  /** The fold of the section "Hash Table" of the System V gABI: conditional, then clear the top nibble. */
  function FoldConditionally(x: bv32): bv32
  {
    if x & 0xf000_0000 != 0
    then (x ^ ((x & 0xf000_0000) >> 24)) & !(x & 0xf000_0000)
    else x & !(x & 0xf000_0000)
  }

  /** The fold of the loop body: `g = h & 0xf0000000; h ^= g; h ^= g >> 24`. */
  function FoldBranchFree(x: bv32): bv32
  {
    (x ^ (x & 0xf000_0000)) ^ ((x & 0xf000_0000) >> 24)
  }

  function GabiRound(h: Word, c: Byte): Word
  {
    Word(FoldConditionally(ShiftIn(h, c).bits))
  }

  function LoopRound(h: Word, c: Byte): Word
  {
    Word(FoldBranchFree(ShiftIn(h, c).bits))
  }

  /** The System V gABI hash of a name. */
  function SysvHash(name: Bytes): Word
  {
    if name == [] then Word(0) else GabiRound(SysvHash(name[..|name| - 1]), name[|name| - 1])
  }

  /** The hash as a number, for the reduction modulo the number of buckets. */
  function SysvHashValue(name: Bytes): int
  {
    SysvHash(name).bits as int
  }

  lemma FoldsAgree(x: bv32)
    ensures FoldBranchFree(x) == FoldConditionally(x)
  {
  }

  lemma FoldIsSmall(x: bv32)
    ensures FoldConditionally(x) < 0x1000_0000
  {
  }

  lemma RoundsAgree(h: Word, c: Byte)
    ensures LoopRound(h, c) == GabiRound(h, c)
  {
    FoldsAgree(ShiftIn(h, c).bits);
  }

  /** The branch-free loop computes the gABI hash. */
  method ComputeSysvHash(name: Bytes) returns (h: Word)
    ensures h == SysvHash(name)
  {
    h := Word(0);
    for i := 0 to |name|
      invariant h == SysvHash(name[..i])
    {
      assert name[..i + 1][..i] == name[..i];
      RoundsAgree(h, name[i]);
      h := LoopRound(h, name[i]);
    }
    assert name[..|name|] == name;
  }

  /** Although `(h << 4) + p` can wrap around 32 bits, the hash of every name stays below 2^28. */
  lemma SysvHashIsBelow2To28(name: Bytes)
    ensures SysvHash(name).bits < 0x1000_0000
  {
    if name == [] {
    } else {
      FoldIsSmall(ShiftIn(SysvHash(name[..|name| - 1]), name[|name| - 1]).bits);
    }
  }

  // -------------------------------------------------------------- GNU hash

  function Pow33(n: nat): nat
  {
    if n == 0 then 1 else 33 * Pow33(n - 1)
  }

  /** The bytes of the name read as digits of a base-33 numeral, most significant first. */
  function Base33(name: Bytes): nat
  {
    if name == [] then 0 else 33 * Base33(name[..|name| - 1]) + name[|name| - 1]
  }

  /** The GNU hash in closed form: 5381 * 33^n plus the base-33 value of the name, modulo 2^32. */
  function GnuHash(name: Bytes): Uint32
  {
    (5381 * Pow33(|name|) + Base33(name)) % TWO32
  }

  /** The loop `h += (h << 5) + p` on 32-bit words computes the closed form. */
  method ComputeGnuHash(name: Bytes) returns (h: Uint32)
    ensures h == GnuHash(name)
  {
    h := 5381;
    for i := 0 to |name|
      invariant h == GnuHash(name[..i])
    {
      assert name[..i + 1][..i] == name[..i];
      GnuRound(5381 * Pow33(i) + Base33(name[..i]), name[i]);
      h := (h + ((h * 32) % TWO32 + name[i]) % TWO32) % TWO32;
    }
    assert name[..|name|] == name;
  }

  lemma GnuRound(x: nat, p: Byte)
    ensures
      var h := x % TWO32;
      (h + ((h * 32) % TWO32 + p) % TWO32) % TWO32 == (33 * x + p) % TWO32
  {
    var h := x % TWO32;
    var shifted := (h * 32) % TWO32;
    var sum := (shifted + p) % TWO32;
    var carry := (h * 32) / TWO32 + (shifted + p) / TWO32 + 33 * (x / TWO32);
    assert 33 * x + p == h + sum + TWO32 * carry;
    DropMultiple(h + sum, carry);
  }

  lemma DropMultiple(a: int, k: int)
    ensures (a + TWO32 * k) % TWO32 == a % TWO32
  {
  }
}
