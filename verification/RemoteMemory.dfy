/** The memory and registers of a traced process, and the calling conventions of the four targets. */
module RemoteMemory {
  import opened Prelude
  import opened LittleEndian

  datatype Arch = X86_64 | I386 | AArch64 | Arm

  function WordSize(arch: Arch): nat
  {
    if arch == X86_64 || arch == AArch64 then 8 else 4
  }

  /** The size of `n` words. */
  function Words(arch: Arch, n: nat): nat
  {
    if arch == X86_64 || arch == AArch64 then 8 * n else 4 * n
  }

  /** One more than the largest word. */
  function WordLimit(arch: Arch): nat
  {
    if arch == X86_64 || arch == AArch64 then 0x1_0000_0000_0000_0000 else TWO32
  }

  /** How many arguments travel in registers. */
  function RegisterArgs(arch: Arch): nat
  {
    match arch
    case X86_64 => 6
    case I386 => 0
    case AArch64 => 8
    case Arm => 4
  }

  /** Whether a call pushes its return address. */
  predicate PushesReturn(arch: Arch)
  {
    arch == X86_64 || arch == I386
  }

  const GENERAL: nat := 32
  const LINK_AARCH64: nat := 30
  const LINK_ARM: nat := 14
  const CPSR_ARM: nat := 16
  const RETURN_X86: nat := 6

  /** Argument registers are numbered from 0; on the ARM targets register 0 also holds the result. */
  datatype Regs = Regs(sp: nat, ip: nat, gpr: seq<nat>)
  {
    predicate Valid()
    {
      |gpr| == GENERAL
    }

    /** All registers hold machine words. */
    predicate Fits(arch: Arch)
    {
      sp < WordLimit(arch) && ip < WordLimit(arch) && forall i :: 0 <= i < |gpr| ==> gpr[i] < WordLimit(arch)
    }
  }

  function ReturnRegister(arch: Arch): nat
  {
    if PushesReturn(arch) then RETURN_X86 else 0
  }

  type Mem = map<nat, Byte>

  function Peek(mem: Mem, a: nat): Byte
  {
    if a in mem then mem[a] else 0
  }

  function ReadBytes(mem: Mem, a: nat, n: nat): (bytes: Bytes)
    ensures |bytes| == n
  {
    seq<Byte>(n, i requires 0 <= i => Peek(mem, a + i))
  }

  /** The byte that lands on address `i` when `bytes` are written at `a`. */
  function Placed(bytes: Bytes, a: nat, i: nat): Byte
    requires a <= i < a + |bytes|
  {
    bytes[i - a]
  }

  function WriteBytes(mem: Mem, a: nat, bytes: Bytes): Mem
  {
    mem + map i: nat | a <= i < a + |bytes| :: Placed(bytes, a, i)
  }

  function ReadWord(arch: Arch, mem: Mem, a: nat): nat
  {
    Decode(ReadBytes(mem, a, WordSize(arch)))
  }

  function WriteWord(arch: Arch, mem: Mem, a: nat, value: nat): Mem
  {
    WriteBytes(mem, a, Encode(value, WordSize(arch)))
  }

  /** The words one after the other. */
  function WordBytes(arch: Arch, words: seq<nat>): (bytes: Bytes)
    ensures |bytes| == Words(arch, |words|)
  {
    if words == [] then [] else Encode(words[0], WordSize(arch)) + WordBytes(arch, words[1..])
  }

  /** The two memories agree on `[from, to)`. */
  ghost predicate SameOn(m: Mem, m': Mem, from: int, to: int)
  {
    forall a: nat :: from <= a < to ==> Peek(m, a) == Peek(m', a)
  }

  lemma WriteElsewhere(mem: Mem, a: nat, bytes: Bytes, from: int, to: int)
    requires to <= a || a + |bytes| <= from
    ensures SameOn(mem, WriteBytes(mem, a, bytes), from, to)
  {
  }

  lemma ReadBack(mem: Mem, a: nat, bytes: Bytes)
    ensures ReadBytes(WriteBytes(mem, a, bytes), a, |bytes|) == bytes
  {
    forall i | 0 <= i < |bytes|
      ensures Peek(WriteBytes(mem, a, bytes), a + i) == bytes[i]
    {
      assert Placed(bytes, a, a + i) == bytes[i];
    }
  }

  lemma SameReads(m: Mem, m': Mem, a: nat, n: nat, from: int, to: int)
    requires SameOn(m, m', from, to) && from <= a && a + n <= to
    ensures ReadBytes(m, a, n) == ReadBytes(m', a, n)
  {
    forall i | 0 <= i < n
      ensures ReadBytes(m, a, n)[i] == ReadBytes(m', a, n)[i]
    {
      assert Peek(m, a + i) == Peek(m', a + i);
    }
  }

  lemma WordFits(arch: Arch)
    ensures Pow256(WordSize(arch)) == WordLimit(arch)
  {
    assert Pow256(4) == 256 * (256 * (256 * 256));
    assert Pow256(8) == 256 * (256 * (256 * (256 * Pow256(4))));
  }

  lemma ReadWordBack(arch: Arch, mem: Mem, a: nat, value: nat)
    requires value < WordLimit(arch)
    ensures ReadWord(arch, WriteWord(arch, mem, a, value), a) == value
  {
    WordFits(arch);
    ReadBack(mem, a, Encode(value, WordSize(arch)));
    DecodeEncode(value, WordSize(arch));
  }
}
