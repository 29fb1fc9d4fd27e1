/**
 Building calls on the stack of another process (loader/src/ptracer/utils.cpp:315-450): strings and call frames are
 pushed below the stack pointer, with the pointer rounded down to a multiple of 16.
 */
module RemoteStack {
  import opened Prelude
  import opened Bitwise
  import opened LittleEndian
  import opened RemoteMemory

  /** Memory and registers together. */
  datatype Machine = Machine(mem: Mem, regs: Regs)

  /** The difference of two words, which wraps around. */
  function Minus(arch: Arch, x: nat, y: nat): nat
  {
    if y <= x then x - y else (x - y) % WordLimit(arch)
  }

  /** The stack pointer lowered by `preserve` and rounded down to a multiple of 16. */
  function AlignStack(arch: Arch, sp: nat, preserve: nat): nat
  {
    var x := Minus(arch, sp, preserve);
    x - x % 16
  }

  /** It is what `(sp - preserve) & ~0xf` computes. */
  lemma AlignStackIsMask(arch: Arch, sp: nat, preserve: nat)
    requires sp < WordLimit(arch)
    ensures AlignStack(arch, sp, preserve) == And(Minus(arch, sp, preserve), WordLimit(arch) - 16)
  {
    var k := if WordSize(arch) == 8 then 60 else 28;
    WordLimitIsPower(arch, k);
    MaskRoundsDown(Minus(arch, sp, preserve), k);
  }

  lemma AlignWithoutWrap(arch: Arch, sp: nat, preserve: nat)
    requires preserve <= sp < WordLimit(arch)
    ensures AlignStack(arch, sp, preserve) == (sp - preserve) - (sp - preserve) % 16
    ensures AlignStack(arch, sp, preserve) % 16 == 0
    ensures AlignStack(arch, sp, preserve) <= sp - preserve
  {
  }

  lemma WordLimitIsPower(arch: Arch, k: nat)
    requires k == if WordSize(arch) == 8 then 60 else 28
    ensures WordLimit(arch) == 16 * Pow2(k)
  {
    PowersMultiply(10, 10);
    PowersMultiply(10, 20);
    PowersMultiply(30, 30);
    PowersMultiply(14, 14);
    assert Pow2(10) == 1024;
    assert Pow2(14) == 16 * Pow2(10);
  }

  lemma {:induction false} PowersMultiply(a: nat, b: nat)
    ensures Pow2(a + b) == Pow2(a) * Pow2(b)
  {
    if a == 0 {
    } else {
      PowersMultiply(a - 1, b);
    }
  }

  // ---------------------------------------------------------------- strings

  function PushAddress(arch: Arch, sp: nat, text: Bytes): nat
  {
    AlignStack(arch, Minus(arch, sp, |text| + 1), 0)
  }

  /** The machine after `push_string`: the text and its terminator lie at the new stack pointer. */
  function PushText(arch: Arch, m: Machine, text: Bytes): Machine
  {
    var a := PushAddress(arch, m.regs.sp, text);
    Machine(WriteBytes(m.mem, a, text + [0]), m.regs.(sp := a))
  }

  // ------------------------------------------------------------------ calls

  /** How many argument words go to the stack. */
  function SpillCount(arch: Arch, args: seq<nat>): nat
  {
    if |args| > RegisterArgs(arch) then |args| - RegisterArgs(arch) else 0
  }

  function SpillBytes(arch: Arch, args: seq<nat>): nat
  {
    Words(arch, SpillCount(arch, args))
  }

  /** The stack pointer once the arguments are on the stack, before a return address is pushed. */
  function CallSp(arch: Arch, sp: nat, args: seq<nat>): nat
  {
    var aligned := AlignStack(arch, sp, 0);
    if SpillCount(arch, args) > 0 then AlignStack(arch, aligned, SpillBytes(arch, args)) else aligned
  }

  /** The stack pointer at the first instruction of the callee. */
  function EntrySp(arch: Arch, sp: nat, args: seq<nat>): nat
  {
    if PushesReturn(arch) then Minus(arch, CallSp(arch, sp, args), WordSize(arch)) else CallSp(arch, sp, args)
  }

  function LoadArgs(gpr: seq<nat>, args: seq<nat>, n: nat): (r: seq<nat>)
    requires n <= |args| && n <= |gpr|
    ensures |r| == |gpr|
    ensures forall i :: 0 <= i < |gpr| ==> r[i] == if i < n then args[i] else gpr[i]
  {
    args[..n] + gpr[n..]
  }

  function SetThumb(cpsr: nat, on: bool): nat
  {
    cpsr - cpsr / 32 % 2 * 32 + if on then 32 else 0
  }

  /** The stack words are copied from the start of the argument vector. */
  function SpilledMem(arch: Arch, mem: Mem, callSp: nat, args: seq<nat>): Mem
  {
    if SpillCount(arch, args) > 0
    then WriteBytes(mem, callSp, WordBytes(arch, args[..SpillCount(arch, args)]))
    else mem
  }

  /** The machine at the first instruction of the callee. */
  function Setup(arch: Arch, m: Machine, func: nat, ret: nat, args: seq<nat>): Machine
    requires m.regs.Valid()
  {
    var inRegs := if |args| < RegisterArgs(arch) then |args| else RegisterArgs(arch);
    var gpr := LoadArgs(m.regs.gpr, args, inRegs);
    var mem := SpilledMem(arch, m.mem, CallSp(arch, m.regs.sp, args), args);
    var sp := EntrySp(arch, m.regs.sp, args);
    match arch
    case X86_64 => Machine(WriteWord(arch, mem, sp, ret), Regs(sp, func, gpr))
    case I386 => Machine(WriteWord(arch, mem, sp, ret), Regs(sp, func, gpr))
    case AArch64 => Machine(mem, Regs(sp, func, gpr[LINK_AARCH64 := ret]))
    case Arm =>
      Machine(mem, Regs(sp, func - func % 2, gpr[LINK_ARM := ret][CPSR_ARM := SetThumb(gpr[CPSR_ARM], func % 2 == 1)]))
  }

  function ReturnPop(arch: Arch): nat
  {
    if PushesReturn(arch) then WordSize(arch) else 0
  }

  /**
   A callee that keeps the calling convention: it returns with the stack pointer restored and leaves the stack of
   its caller, from above its own arguments up to `top`, as it was.
   */
  ghost predicate Conforms(arch: Arch, top: nat, entry: Machine, argBytes: nat, after: Machine)
  {
    && after.regs.Valid()
    && after.regs.sp == entry.regs.sp + ReturnPop(arch)
    && SameOn(entry.mem, after.mem, entry.regs.sp + ReturnPop(arch) + argBytes, top)
  }

  /** The stack pointer arithmetic of a call does not wrap. */
  predicate CallFits(arch: Arch, sp: nat, args: seq<nat>)
  {
    var aligned := sp - sp % 16;
    && SpillBytes(arch, args) <= aligned
    && ReturnPop(arch) <= (aligned - SpillBytes(arch, args)) - (aligned - SpillBytes(arch, args)) % 16
  }

  lemma CallStaysBelow(arch: Arch, sp: nat, args: seq<nat>)
    requires sp < WordLimit(arch) && CallFits(arch, sp, args)
    ensures CallSp(arch, sp, args) + SpillBytes(arch, args) <= sp
    ensures EntrySp(arch, sp, args) + ReturnPop(arch) == CallSp(arch, sp, args)
    ensures CallSp(arch, sp, args) % 16 == 0
  {
    var spill := SpillBytes(arch, args);
    AlignWithoutWrap(arch, sp, 0);
    var aligned := AlignStack(arch, sp, 0);
    AlignWithoutWrap(arch, aligned, spill);
    var callSp := CallSp(arch, sp, args);
    if SpillCount(arch, args) == 0 {
      assert spill == 0 && callSp == aligned;
    } else {
      assert callSp == AlignStack(arch, aligned, spill);
    }
    assert ReturnPop(arch) <= callSp;
  }

  // ---------------------------------------------------------------- sessions

  datatype Pushed = Pushed(addr: nat, bytes: Bytes)

  datatype Op =
    | Push(text: Bytes)
    | Call(func: nat, ret: nat, args: seq<nat>, after: Machine)

  datatype Session = Session(now: Machine, pushed: seq<Pushed>)

  ghost predicate CanDo(arch: Arch, top: nat, s: Session, op: Op)
  {
    s.now.regs.Valid() &&
    match op
    case Push(text) => |text| + 1 <= s.now.regs.sp
    case Call(func, ret, args, after) =>
      && CallFits(arch, s.now.regs.sp, args)
      && Conforms(arch, top, Setup(arch, s.now, func, ret, args), SpillBytes(arch, args), after)
  }

  function Do(arch: Arch, s: Session, op: Op): Session
  {
    match op
    case Push(text) =>
      Session(PushText(arch, s.now, text), s.pushed + [Pushed(PushAddress(arch, s.now.regs.sp, text), text + [0])])
    case Call(_, _, _, after) => s.(now := after)
  }

  ghost predicate Feasible(arch: Arch, top: nat, s: Session, ops: seq<Op>)
    decreases |ops|
  {
    ops == [] || (CanDo(arch, top, s, ops[0]) && Feasible(arch, top, Do(arch, s, ops[0]), ops[1..]))
  }

  function DoAll(arch: Arch, s: Session, ops: seq<Op>): Session
    decreases |ops|
  {
    if ops == [] then s else DoAll(arch, Do(arch, s, ops[0]), ops[1..])
  }

  /** Strings lie one below the other between the stack pointer and where it started. */
  ghost predicate Stacked(s: Session, sp0: nat, i: nat)
    requires i < |s.pushed|
  {
    var p := s.pushed[i];
    && p.addr % 16 == 0
    && s.now.regs.sp <= p.addr
    && p.addr + |p.bytes| <= (if i == 0 then sp0 else s.pushed[i - 1].addr)
  }

  ghost predicate Intact(s: Session, i: nat)
    requires i < |s.pushed|
  {
    ReadBytes(s.now.mem, s.pushed[i].addr, |s.pushed[i].bytes|) == s.pushed[i].bytes
  }

  /** `mem0` and `sp0` are the memory and the stack pointer at the start of the session. */
  ghost predicate SessionInv(arch: Arch, top: nat, mem0: Mem, sp0: nat, s: Session)
  {
    && s.now.regs.Valid()
    && s.now.regs.sp <= sp0 <= top < WordLimit(arch)
    && (forall i :: 0 <= i < |s.pushed| ==> Stacked(s, sp0, i) && Intact(s, i))
    && SameOn(mem0, s.now.mem, sp0, top)
  }

  lemma BelowStart(s: Session, sp0: nat, i: nat)
    requires forall k :: 0 <= k < |s.pushed| ==> Stacked(s, sp0, k)
    requires i < |s.pushed|
    ensures s.pushed[i].addr + |s.pushed[i].bytes| <= sp0
    decreases i
  {
    assert Stacked(s, sp0, i);
    if i == 0 {
    } else {
      BelowStart(s, sp0, i - 1);
    }
  }

  /** A change of memory confined to addresses below the current stack pointer keeps the session in order. */
  lemma WriteBelowKeeps(arch: Arch, top: nat, mem0: Mem, sp0: nat, s: Session, t: Session)
    requires SessionInv(arch, top, mem0, sp0, s)
    requires t.pushed == s.pushed && t.now.regs.Valid() && t.now.regs.sp <= s.now.regs.sp
    requires SameOn(s.now.mem, t.now.mem, s.now.regs.sp, top)
    ensures SessionInv(arch, top, mem0, sp0, t)
  {
    forall i | 0 <= i < |t.pushed|
      ensures Stacked(t, sp0, i) && Intact(t, i)
    {
      assert Stacked(s, sp0, i) && Intact(s, i);
      BelowStart(s, sp0, i);
      SameReads(s.now.mem, t.now.mem, s.pushed[i].addr, |s.pushed[i].bytes|, s.now.regs.sp, top);
    }
  }

  lemma PushStaysBelow(arch: Arch, sp: nat, text: Bytes)
    requires |text| + 1 <= sp < WordLimit(arch)
    ensures PushAddress(arch, sp, text) % 16 == 0
    ensures PushAddress(arch, sp, text) + |text| + 1 <= sp
  {
    AlignWithoutWrap(arch, sp - (|text| + 1), 0);
  }

  /** A string at the stack pointer, below everything pushed before, joins the record. */
  lemma RecordKeeps(arch: Arch, top: nat, mem0: Mem, sp0: nat, s: Session, bytes: Bytes)
    requires SessionInv(arch, top, mem0, sp0, s)
    requires s.now.regs.sp % 16 == 0
    requires s.now.regs.sp + |bytes| <= (if s.pushed == [] then sp0 else s.pushed[|s.pushed| - 1].addr)
    requires ReadBytes(s.now.mem, s.now.regs.sp, |bytes|) == bytes
    ensures SessionInv(arch, top, mem0, sp0, s.(pushed := s.pushed + [Pushed(s.now.regs.sp, bytes)]))
  {
    var t := s.(pushed := s.pushed + [Pushed(s.now.regs.sp, bytes)]);
    forall i | 0 <= i < |t.pushed|
      ensures Stacked(t, sp0, i) && Intact(t, i)
    {
      if i < |s.pushed| {
        assert Stacked(s, sp0, i) && Intact(s, i);
      }
    }
  }

  /** Bytes written below the stack pointer, which moves there, join the record. */
  lemma PlaceKeeps(arch: Arch, top: nat, mem0: Mem, sp0: nat, s: Session, a: nat, bytes: Bytes)
    requires SessionInv(arch, top, mem0, sp0, s) && a % 16 == 0 && a + |bytes| <= s.now.regs.sp
    ensures
      var now := Machine(WriteBytes(s.now.mem, a, bytes), s.now.regs.(sp := a));
      SessionInv(arch, top, mem0, sp0, Session(now, s.pushed + [Pushed(a, bytes)]))
  {
    WriteElsewhere(s.now.mem, a, bytes, s.now.regs.sp, top);
    var mid := s.(now := Machine(WriteBytes(s.now.mem, a, bytes), s.now.regs.(sp := a)));
    WriteBelowKeeps(arch, top, mem0, sp0, s, mid);
    ReadBack(s.now.mem, a, bytes);
    if s.pushed != [] {
      assert Stacked(s, sp0, |s.pushed| - 1);
    }
    RecordKeeps(arch, top, mem0, sp0, mid, bytes);
  }

  lemma PushKeeps(arch: Arch, top: nat, mem0: Mem, sp0: nat, s: Session, text: Bytes)
    requires SessionInv(arch, top, mem0, sp0, s) && CanDo(arch, top, s, Push(text))
    ensures SessionInv(arch, top, mem0, sp0, Do(arch, s, Push(text)))
  {
    PushStaysBelow(arch, s.now.regs.sp, text);
    PlaceKeeps(arch, top, mem0, sp0, s, PushAddress(arch, s.now.regs.sp, text), text + [0]);
  }

  lemma SpillWritesBelow(arch: Arch, mem: Mem, sp: nat, args: seq<nat>, top: nat)
    requires sp < WordLimit(arch) && CallFits(arch, sp, args)
    ensures SameOn(mem, SpilledMem(arch, mem, CallSp(arch, sp, args), args), sp, top)
  {
    CallStaysBelow(arch, sp, args);
    WriteElsewhere(mem, CallSp(arch, sp, args), WordBytes(arch, args[..SpillCount(arch, args)]), sp, top);
  }

  lemma SetupWritesBelow(arch: Arch, m: Machine, func: nat, ret: nat, args: seq<nat>, top: nat)
    requires m.regs.Valid() && m.regs.sp < WordLimit(arch) && CallFits(arch, m.regs.sp, args)
    ensures Setup(arch, m, func, ret, args).regs.sp == EntrySp(arch, m.regs.sp, args)
    ensures SameOn(m.mem, Setup(arch, m, func, ret, args).mem, m.regs.sp, top)
  {
    var sp := m.regs.sp;
    var mem := SpilledMem(arch, m.mem, CallSp(arch, sp, args), args);
    var entrySp := EntrySp(arch, sp, args);
    SpillWritesBelow(arch, m.mem, sp, args, top);
    CallStaysBelow(arch, sp, args);
    if PushesReturn(arch) {
      var bytes := Encode(ret, WordSize(arch));
      assert entrySp + |bytes| <= sp;
      WriteElsewhere(mem, entrySp, bytes, sp, top);
      SameTransitive(m.mem, mem, WriteBytes(mem, entrySp, bytes), sp, top);
    }
  }

  lemma SameTransitive(m1: Mem, m2: Mem, m3: Mem, from: int, to: int)
    requires SameOn(m1, m2, from, to) && SameOn(m2, m3, from, to)
    ensures SameOn(m1, m3, from, to)
  {
    forall a: nat | from <= a < to
      ensures Peek(m1, a) == Peek(m3, a)
    {
      assert Peek(m1, a) == Peek(m2, a);
    }
  }

  lemma CallKeeps(arch: Arch, top: nat, mem0: Mem, sp0: nat, s: Session, op: Op)
    requires op.Call?
    requires SessionInv(arch, top, mem0, sp0, s) && CanDo(arch, top, s, op)
    ensures SessionInv(arch, top, mem0, sp0, Do(arch, s, op))
  {
    var sp := s.now.regs.sp;
    var entry := Setup(arch, s.now, op.func, op.ret, op.args);
    CallStaysBelow(arch, sp, op.args);
    SetupWritesBelow(arch, s.now, op.func, op.ret, op.args, top);
    assert SameOn(entry.mem, op.after.mem, sp, top);
    SameTransitive(s.now.mem, entry.mem, op.after.mem, sp, top);
    WriteBelowKeeps(arch, top, mem0, sp0, s, Do(arch, s, op));
  }

  lemma {:induction false} SessionKeepsInv(arch: Arch, top: nat, mem0: Mem, sp0: nat, s: Session, ops: seq<Op>)
    requires SessionInv(arch, top, mem0, sp0, s) && Feasible(arch, top, s, ops)
    ensures SessionInv(arch, top, mem0, sp0, DoAll(arch, s, ops))
    decreases |ops|
  {
    if ops == [] {
      assert DoAll(arch, s, ops) == s;
    } else {
      match ops[0] {
        case Push(text) => PushKeeps(arch, top, mem0, sp0, s, text);
        case Call(_, _, _, _) => CallKeeps(arch, top, mem0, sp0, s, ops[0]);
      }
      SessionKeepsInv(arch, top, mem0, sp0, Do(arch, s, ops[0]), ops[1..]);
    }
  }

  /**
   For every sequence of pushes and calls with conforming callees: the strings are 16-aligned, pairwise disjoint,
   unharmed and not below the stack pointer, and nothing at or above the initial stack pointer has changed.
   */
  lemma StringsSurvive(arch: Arch, top: nat, start: Machine, ops: seq<Op>)
    requires start.regs.Valid() && start.regs.sp <= top < WordLimit(arch)
    requires Feasible(arch, top, Session(start, []), ops)
    ensures
      var s := DoAll(arch, Session(start, []), ops);
      && SameOn(start.mem, s.now.mem, start.regs.sp, top)
      && (forall i :: 0 <= i < |s.pushed| ==>
            && s.pushed[i].addr % 16 == 0
            && s.now.regs.sp <= s.pushed[i].addr
            && s.pushed[i].addr + |s.pushed[i].bytes| <= start.regs.sp
            && Intact(s, i))
      && (forall i, j :: 0 <= i < j < |s.pushed| ==> s.pushed[j].addr + |s.pushed[j].bytes| <= s.pushed[i].addr)
  {
    SessionKeepsInv(arch, top, start.mem, start.regs.sp, Session(start, []), ops);
    var s := DoAll(arch, Session(start, []), ops);
    forall i | 0 <= i < |s.pushed|
      ensures Stacked(s, start.regs.sp, i) && s.pushed[i].addr + |s.pushed[i].bytes| <= start.regs.sp
    {
      BelowStart(s, start.regs.sp, i);
    }
    forall i, j | 0 <= i < j < |s.pushed|
      ensures s.pushed[j].addr + |s.pushed[j].bytes| <= s.pushed[i].addr
    {
      Descending(s, start.regs.sp, i, j);
    }
  }

  lemma Descending(s: Session, sp0: nat, i: nat, j: nat)
    requires forall k :: 0 <= k < |s.pushed| ==> Stacked(s, sp0, k)
    requires i < j < |s.pushed|
    ensures s.pushed[j].addr + |s.pushed[j].bytes| <= s.pushed[i].addr
    decreases j
  {
    assert Stacked(s, sp0, j);
    if i < j - 1 {
      Descending(s, sp0, i, j - 1);
    }
  }

  /**
   At the entry of every call of a session the stack pointer is strictly below all strings pushed before on the targets
   that push a return address, and never above them; with the return address popped it is a multiple of 16
   (section 3.2.2 of the AMD64 psABI).
   */
  lemma EntryIsAlignedAndBelow(arch: Arch, top: nat, start: Machine, ops: seq<Op>, op: Op)
    requires start.regs.Valid() && start.regs.sp <= top < WordLimit(arch)
    requires Feasible(arch, top, Session(start, []), ops)
    requires op.Call? && CanDo(arch, top, DoAll(arch, Session(start, []), ops), op)
    ensures
      var s := DoAll(arch, Session(start, []), ops);
      var entry := Setup(arch, s.now, op.func, op.ret, op.args);
      && (entry.regs.sp + ReturnPop(arch)) % 16 == 0
      && (forall i :: 0 <= i < |s.pushed| ==>
            entry.regs.sp + ReturnPop(arch) + SpillBytes(arch, op.args) <= s.pushed[i].addr)
  {
    SessionKeepsInv(arch, top, start.mem, start.regs.sp, Session(start, []), ops);
    var s := DoAll(arch, Session(start, []), ops);
    CallStaysBelow(arch, s.now.regs.sp, op.args);
    SetupWritesBelow(arch, s.now, op.func, op.ret, op.args, top);
    forall i | 0 <= i < |s.pushed|
      ensures s.now.regs.sp <= s.pushed[i].addr
    {
      assert Stacked(s, start.regs.sp, i);
    }
  }

  // ---------------------------------------------------------------- arguments

  lemma {:induction false} WordBytesAt(arch: Arch, words: seq<nat>, i: nat)
    requires i < |words|
    ensures Words(arch, i) + WordSize(arch) <= Words(arch, |words|)
    ensures WordBytes(arch, words)[Words(arch, i)..Words(arch, i) + WordSize(arch)] == Encode(words[i], WordSize(arch))
  {
    var w := WordSize(arch);
    var head := Encode(words[0], w);
    var rest := WordBytes(arch, words[1..]);
    assert WordBytes(arch, words) == head + rest;
    if i == 0 {
      assert (head + rest)[..w] == head;
    } else {
      WordBytesAt(arch, words[1..], i - 1);
      assert Words(arch, i) == w + Words(arch, i - 1);
      SliceBehind(head, rest, Words(arch, i - 1), w);
    }
  }

  lemma SliceBehind(head: Bytes, rest: Bytes, from: nat, len: nat)
    requires from + len <= |rest|
    ensures (head + rest)[|head| + from..|head| + from + len] == rest[from..from + len]
  {
  }

  /** The word in stack argument slot `i` of the callee. */
  function StackSlot(arch: Arch, sp: nat, entry: Machine, args: seq<nat>, i: nat): nat
  {
    ReadWord(arch, entry.mem, CallSp(arch, sp, args) + Words(arch, i))
  }

  /** The callee finds its register arguments in order. */
  lemma RegisterArgumentsPlaced(arch: Arch, m: Machine, func: nat, ret: nat, args: seq<nat>, i: nat)
    requires m.regs.Valid() && i < |args| && i < RegisterArgs(arch)
    ensures Setup(arch, m, func, ret, args).regs.gpr[i] == args[i]
  {
  }

  /**
   The process goes on at the function; on Arm an odd address selects Thumb mode, bit 5 of the status register, and the
   program counter is even.
   */
  lemma EntersFunction(arch: Arch, m: Machine, func: nat, ret: nat, args: seq<nat>)
    requires m.regs.Valid()
    ensures
      var regs := Setup(arch, m, func, ret, args).regs;
      && regs.Valid()
      && (arch != Arm ==> regs.ip == func)
      && (arch == Arm ==> regs.ip == func - func % 2 && regs.gpr[CPSR_ARM] / 32 % 2 == func % 2)
  {
    if arch == Arm {
      ThumbBit(m.regs.gpr[CPSR_ARM], func % 2 == 1);
    }
  }

  lemma ThumbBit(cpsr: nat, on: bool)
    ensures SetThumb(cpsr, on) / 32 % 2 == if on then 1 else 0
    ensures SetThumb(cpsr, on) % 32 == cpsr % 32 && SetThumb(cpsr, on) / 64 == cpsr / 64
  {
    BitFive(cpsr / 64, cpsr / 32 % 2, cpsr % 32);
    BitFive(cpsr / 64, if on then 1 else 0, cpsr % 32);
  }

  lemma BitFive(high: nat, bit: nat, low: nat)
    requires bit < 2 && low < 32
    ensures
      var x := 64 * high + 32 * bit + low;
      x % 32 == low && x / 32 % 2 == bit && x / 64 == high
  {
  }

  /** Where the callee finds its return address. */
  function ReturnAddress(arch: Arch, entry: Machine): nat
    requires entry.regs.Valid()
  {
    match arch
    case X86_64 => ReadWord(arch, entry.mem, entry.regs.sp)
    case I386 => ReadWord(arch, entry.mem, entry.regs.sp)
    case AArch64 => entry.regs.gpr[LINK_AARCH64]
    case Arm => entry.regs.gpr[LINK_ARM]
  }

  lemma ReturnAddressPlaced(arch: Arch, m: Machine, func: nat, ret: nat, args: seq<nat>)
    requires m.regs.Valid() && ret < WordLimit(arch)
    ensures Setup(arch, m, func, ret, args).regs.Valid()
    ensures ReturnAddress(arch, Setup(arch, m, func, ret, args)) == ret
  {
    if PushesReturn(arch) {
      var sp := EntrySp(arch, m.regs.sp, args);
      ReadWordBack(arch, SpilledMem(arch, m.mem, CallSp(arch, m.regs.sp, args), args), sp, ret);
    }
  }

  /** In stack slot `i` it finds the argument with number `i`. */
  lemma StackArgumentPlaced(arch: Arch, m: Machine, func: nat, ret: nat, args: seq<nat>, i: nat)
    requires m.regs.Valid() && m.regs.sp < WordLimit(arch) && CallFits(arch, m.regs.sp, args)
    requires i < SpillCount(arch, args) && args[i] < WordLimit(arch)
    ensures StackSlot(arch, m.regs.sp, Setup(arch, m, func, ret, args), args, i) == args[i]
  {
    SpilledWord(arch, m.mem, CallSp(arch, m.regs.sp, args), args, i);
    SlotKept(arch, m, func, ret, args, i);
  }

  /** Before the return address is pushed, slot `i` holds argument `i`. */
  lemma SpilledWord(arch: Arch, mem: Mem, callSp: nat, args: seq<nat>, i: nat)
    requires i < SpillCount(arch, args) && args[i] < WordLimit(arch)
    ensures ReadWord(arch, SpilledMem(arch, mem, callSp, args), callSp + Words(arch, i)) == args[i]
  {
    var words := args[..SpillCount(arch, args)];
    ReadBack(mem, callSp, WordBytes(arch, words));
    StoredWord(arch, SpilledMem(arch, mem, callSp, args), callSp, words, i);
  }

  /** Where the bytes of some words lie, each word can be read. */
  lemma StoredWord(arch: Arch, mem: Mem, a: nat, words: seq<nat>, i: nat)
    requires i < |words| && words[i] < WordLimit(arch)
    requires ReadBytes(mem, a, |WordBytes(arch, words)|) == WordBytes(arch, words)
    ensures ReadWord(arch, mem, a + Words(arch, i)) == words[i]
  {
    WordBytesAt(arch, words, i);
    ReadPart(mem, a, |WordBytes(arch, words)|, Words(arch, i), WordSize(arch));
    WordFits(arch);
    DecodeEncode(words[i], WordSize(arch));
  }

  /** Pushing the return address does not touch the words above it. */
  lemma SlotKept(arch: Arch, m: Machine, func: nat, ret: nat, args: seq<nat>, i: nat)
    requires m.regs.Valid() && m.regs.sp < WordLimit(arch) && CallFits(arch, m.regs.sp, args)
    ensures
      var callSp := CallSp(arch, m.regs.sp, args);
      ReadWord(arch, Setup(arch, m, func, ret, args).mem, callSp + Words(arch, i)) ==
      ReadWord(arch, SpilledMem(arch, m.mem, callSp, args), callSp + Words(arch, i))
  {
    var callSp, entrySp := CallSp(arch, m.regs.sp, args), EntrySp(arch, m.regs.sp, args);
    EntryBelow(arch, m.regs.sp, args);
    SetupMem(arch, m, func, ret, args);
    if PushesReturn(arch) {
      ReturnBelow(arch, SpilledMem(arch, m.mem, callSp, args), entrySp, callSp, ret, callSp + Words(arch, i));
    }
  }

  lemma EntryBelow(arch: Arch, sp: nat, args: seq<nat>)
    requires sp < WordLimit(arch) && CallFits(arch, sp, args)
    ensures EntrySp(arch, sp, args) + ReturnPop(arch) == CallSp(arch, sp, args)
  {
    CallStaysBelow(arch, sp, args);
  }

  /** The memory at the first instruction of the callee. */
  lemma SetupMem(arch: Arch, m: Machine, func: nat, ret: nat, args: seq<nat>)
    requires m.regs.Valid()
    ensures
      var mem := SpilledMem(arch, m.mem, CallSp(arch, m.regs.sp, args), args);
      Setup(arch, m, func, ret, args).mem ==
        if PushesReturn(arch) then WriteWord(arch, mem, EntrySp(arch, m.regs.sp, args), ret) else mem
  {
  }

  lemma ReturnBelow(arch: Arch, mem: Mem, entrySp: nat, callSp: nat, ret: nat, a: nat)
    requires entrySp + WordSize(arch) == callSp <= a
    ensures ReadWord(arch, WriteWord(arch, mem, entrySp, ret), a) == ReadWord(arch, mem, a)
  {
    var bytes := Encode(ret, WordSize(arch));
    WriteElsewhere(mem, entrySp, bytes, a, a + WordSize(arch));
    SameReads(mem, WriteBytes(mem, entrySp, bytes), a, WordSize(arch), a, a + WordSize(arch));
  }

  lemma ReadPart(mem: Mem, a: nat, n: nat, from: nat, len: nat)
    requires from + len <= n
    ensures ReadBytes(mem, a + from, len) == ReadBytes(mem, a, n)[from..from + len]
  {
  }

  /** Argument `i` where the calling convention puts it. */
  function ArgumentOf(arch: Arch, entry: Machine, i: nat): nat
    requires entry.regs.Valid()
  {
    if i < RegisterArgs(arch) then entry.regs.gpr[i]
    else ReadWord(arch, entry.mem, entry.regs.sp + ReturnPop(arch) + Words(arch, i - RegisterArgs(arch)))
  }

  /** Calls whose arguments all travel in registers, or all on the stack, deliver them. */
  lemma ArgumentsArrive(arch: Arch, m: Machine, func: nat, ret: nat, args: seq<nat>, i: nat)
    requires m.regs.Valid() && m.regs.sp < WordLimit(arch) && CallFits(arch, m.regs.sp, args)
    requires i < |args| && args[i] < WordLimit(arch) && (|args| <= RegisterArgs(arch) || arch == I386)
    ensures Setup(arch, m, func, ret, args).regs.Valid()
    ensures ArgumentOf(arch, Setup(arch, m, func, ret, args), i) == args[i]
  {
    if arch == I386 {
      StackArgumentPlaced(arch, m, func, ret, args, i);
      CallStaysBelow(arch, m.regs.sp, args);
    }
  }

  /** The stack arguments as the callee finds them. */
  function StackArguments(arch: Arch, sp: nat, entry: Machine, args: seq<nat>): seq<nat>
  {
    seq(SpillCount(arch, args), i requires 0 <= i => StackSlot(arch, sp, entry, args, i))
  }

  /**
   The convention wants the arguments that did not fit the registers, `args[RegisterArgs..]`, but the stack words are
   copied from the start of the vector: the callee finds the right ones exactly if none are needed or the tail
   of the vector repeats its head.
   */
  lemma StackArgumentsAreRightIff(arch: Arch, m: Machine, func: nat, ret: nat, args: seq<nat>)
    requires m.regs.Valid() && m.regs.sp < WordLimit(arch) && CallFits(arch, m.regs.sp, args)
    requires forall i :: 0 <= i < |args| ==> args[i] < WordLimit(arch)
    ensures
      var found := StackArguments(arch, m.regs.sp, Setup(arch, m, func, ret, args), args);
      var n := RegisterArgs(arch);
      if |args| <= n then found == []
      else found == args[n..] <==> args[n..] == args[..|args| - n]
  {
    var entry := Setup(arch, m, func, ret, args);
    var found := StackArguments(arch, m.regs.sp, entry, args);
    forall i | 0 <= i < |found|
      ensures found[i] == args[i]
    {
      StackArgumentPlaced(arch, m, func, ret, args, i);
    }
    assert found == args[..SpillCount(arch, args)];
  }

  /** The seventh argument of a call on x86_64: the callee finds the first one in its place. */
  lemma SeventhArgumentIsTheFirst(m: Machine, func: nat, ret: nat)
    requires m.regs.Valid() && 64 <= m.regs.sp < WordLimit(X86_64)
    ensures
      var args := [1, 2, 3, 4, 5, 6, 7];
      StackArguments(X86_64, m.regs.sp, Setup(X86_64, m, func, ret, args), args) == [1]
  {
    StackArgumentPlaced(X86_64, m, func, ret, [1, 2, 3, 4, 5, 6, 7], 0);
  }
}
