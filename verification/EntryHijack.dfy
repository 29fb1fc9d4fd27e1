/**
 Injection at the program entry (loader/src/ptracer/ptracer.cpp:19-239): find the AT_ENTRY record on the initial
 stack, replace its value by an unmapped address, and when the process faults there put it back, call into the
 process, and restore the registers with the program counter at the real entry.
 */
module EntryHijack {
  import opened Prelude
  import opened Bitwise
  import opened LittleEndian
  import opened RemoteMemory
  import opened RemoteStack

  const AT_NULL: nat := 0
  const AT_ENTRY: nat := 9
  const RTLD_NOW: nat := 2

  /** Entry `i` of the environment vector. */
  function EnvAddr(arch: Arch, sp: nat, argc: nat, i: nat): nat
  {
    sp + Words(arch, argc + 2 + i)
  }

  /** Record `j` of the auxiliary vector; its value is one word further. */
  function AuxAddr(arch: Arch, sp: nat, argc: nat, env: nat, j: nat): nat
  {
    sp + Words(arch, argc + 3 + env + 2 * j)
  }

  /**
   The stack of a process that has just been started: the argument count, the argument vector, `env` environment
   pointers and a null, and `aux` auxiliary records and a null record.
   */
  ghost predicate InitialStack(arch: Arch, mem: Mem, sp: nat, argc: nat, env: nat, aux: nat)
  {
    && Decode(ReadBytes(mem, sp, 4)) == argc
    && (forall i :: 0 <= i < env ==> ReadWord(arch, mem, EnvAddr(arch, sp, argc, i)) != 0)
    && ReadWord(arch, mem, EnvAddr(arch, sp, argc, env)) == 0
    && (forall j :: 0 <= j < aux ==> ReadWord(arch, mem, AuxAddr(arch, sp, argc, env, j)) != AT_NULL)
    && ReadWord(arch, mem, AuxAddr(arch, sp, argc, env, aux)) == AT_NULL
  }

  /** The address of the value of the first AT_ENTRY record at or after `j`. */
  function EntrySlot(arch: Arch, mem: Mem, sp: nat, argc: nat, env: nat, aux: nat, j: nat): Option<nat>
    decreases aux - j
  {
    if j >= aux then None
    else if ReadWord(arch, mem, AuxAddr(arch, sp, argc, env, j)) == AT_ENTRY
    then Some(AuxAddr(arch, sp, argc, env, j) + WordSize(arch))
    else EntrySlot(arch, mem, sp, argc, env, aux, j + 1)
  }

  datatype Record = Record(kind: nat, value: nat)

  function Flat(auxv: seq<Record>): (words: seq<nat>)
    ensures |words| == 2 * |auxv|
    ensures forall j :: 0 <= j < |auxv| ==> words[2 * j] == auxv[j].kind && words[2 * j + 1] == auxv[j].value
  {
    if auxv == [] then []
    else Flat(auxv[..|auxv| - 1]) + [auxv[|auxv| - 1].kind, auxv[|auxv| - 1].value]
  }

  ghost predicate WordsAt(arch: Arch, mem: Mem, a: nat, words: seq<nat>)
  {
    forall i :: 0 <= i < |words| ==> ReadWord(arch, mem, a + Words(arch, i)) == words[i]
  }

  /** The words the kernel puts on the stack of a new process. */
  function StackWords(argv: seq<nat>, envp: seq<nat>, auxv: seq<Record>): seq<nat>
  {
    [|argv|] + argv + [0] + envp + [0] + Flat(auxv) + [AT_NULL, 0]
  }

  ghost predicate Layout(arch: Arch, mem: Mem, sp: nat, argv: seq<nat>, envp: seq<nat>, auxv: seq<Record>)
  {
    && |argv| < TWO32 && WordsAt(arch, mem, sp, StackWords(argv, envp, auxv))
    && (forall i :: 0 <= i < |envp| ==> envp[i] != 0)
    && (forall j :: 0 <= j < |auxv| ==> auxv[j].kind != AT_NULL)
  }

  lemma StackWordsAre(argv: seq<nat>, envp: seq<nat>, auxv: seq<Record>)
    ensures
      var words := StackWords(argv, envp, auxv);
      var e, a := |argv| + 2, |argv| + 3 + |envp|;
      && |words| == a + 2 * |auxv| + 2 && words[0] == |argv|
      && (forall i :: 0 <= i < |envp| ==> words[e + i] == envp[i]) && words[e + |envp|] == 0
      && (forall j :: 0 <= j < |auxv| ==> words[a + 2 * j] == auxv[j].kind && words[a + 2 * j + 1] == auxv[j].value)
      && words[a + 2 * |auxv|] == AT_NULL
  {
    var head := [|argv|] + argv + [0];
    var front := head + envp + [0];
    var words := StackWords(argv, envp, auxv);
    assert words == front + (Flat(auxv) + [AT_NULL, 0]);
    assert forall i :: 0 <= i < |front| ==> words[i] == front[i];
    assert forall j :: 0 <= j < |Flat(auxv)| ==> words[|front| + j] == Flat(auxv)[j];
  }

  lemma ArgcIsWord(arch: Arch, mem: Mem, sp: nat, argc: nat)
    requires ReadWord(arch, mem, sp) == argc < TWO32
    ensures Decode(ReadBytes(mem, sp, 4)) == argc
  {
    var word := ReadBytes(mem, sp, WordSize(arch));
    assert word[..4] == ReadBytes(mem, sp, 4);
    DecodeSplit(word, 4);
    EncodeDecode(word[..4]);
    assert Pow256(4) == TWO32;
  }

  lemma EnvironmentWord(arch: Arch, mem: Mem, sp: nat, argv: seq<nat>, envp: seq<nat>, auxv: seq<Record>, i: nat)
    requires WordsAt(arch, mem, sp, StackWords(argv, envp, auxv)) && i <= |envp|
    ensures ReadWord(arch, mem, EnvAddr(arch, sp, |argv|, i)) == if i < |envp| then envp[i] else 0
  {
    StackWordsAre(argv, envp, auxv);
    var k := |argv| + 2 + i;
    assert ReadWord(arch, mem, sp + Words(arch, k)) == StackWords(argv, envp, auxv)[k];
  }

  lemma AuxiliaryWords(arch: Arch, mem: Mem, sp: nat, argv: seq<nat>, envp: seq<nat>, auxv: seq<Record>, j: nat)
    requires WordsAt(arch, mem, sp, StackWords(argv, envp, auxv)) && j <= |auxv|
    ensures
      var a := AuxAddr(arch, sp, |argv|, |envp|, j);
      if j < |auxv|
      then ReadWord(arch, mem, a) == auxv[j].kind && ReadWord(arch, mem, a + WordSize(arch)) == auxv[j].value
      else ReadWord(arch, mem, a) == AT_NULL
  {
    StackWordsAre(argv, envp, auxv);
    var k := |argv| + 3 + |envp| + 2 * j;
    assert ReadWord(arch, mem, sp + Words(arch, k)) == StackWords(argv, envp, auxv)[k];
    assert ReadWord(arch, mem, sp + Words(arch, k + 1)) == StackWords(argv, envp, auxv)[k + 1];
    assert sp + Words(arch, k) + WordSize(arch) == sp + Words(arch, k + 1);
  }

  /** A stack so laid out is one the walks can read. */
  lemma LayoutIsInitialStack(arch: Arch, mem: Mem, sp: nat, argv: seq<nat>, envp: seq<nat>, auxv: seq<Record>)
    requires Layout(arch, mem, sp, argv, envp, auxv)
    ensures InitialStack(arch, mem, sp, |argv|, |envp|, |auxv|)
  {
    ArgumentCount(arch, mem, sp, argv, envp, auxv);
    forall i | 0 <= i <= |envp|
      ensures ReadWord(arch, mem, EnvAddr(arch, sp, |argv|, i)) == if i < |envp| then envp[i] else 0
    {
      EnvironmentWord(arch, mem, sp, argv, envp, auxv, i);
    }
    forall j | 0 <= j <= |auxv|
      ensures ReadWord(arch, mem, AuxAddr(arch, sp, |argv|, |envp|, j)) == if j < |auxv| then auxv[j].kind else AT_NULL
    {
      AuxiliaryWords(arch, mem, sp, argv, envp, auxv, j);
    }
  }

  lemma ArgumentCount(arch: Arch, mem: Mem, sp: nat, argv: seq<nat>, envp: seq<nat>, auxv: seq<Record>)
    requires WordsAt(arch, mem, sp, StackWords(argv, envp, auxv)) && |argv| < TWO32
    ensures Decode(ReadBytes(mem, sp, 4)) == |argv|
  {
    StackWordsAre(argv, envp, auxv);
    assert ReadWord(arch, mem, sp + Words(arch, 0)) == StackWords(argv, envp, auxv)[0];
    ArgcIsWord(arch, mem, sp, |argv|);
  }

  ghost predicate FirstEntry(auxv: seq<Record>, from: nat, j: nat)
  {
    from <= j < |auxv| && auxv[j].kind == AT_ENTRY && forall k :: from <= k < j ==> auxv[k].kind != AT_ENTRY
  }

  /** The slot found holds the value of the first AT_ENTRY record, and none is found if there is no such record. */
  lemma {:induction false} EntrySlotIsFirst(
    arch: Arch, mem: Mem, sp: nat, argv: seq<nat>, envp: seq<nat>, auxv: seq<Record>, from: nat)
    requires Layout(arch, mem, sp, argv, envp, auxv) && from <= |auxv|
    ensures match EntrySlot(arch, mem, sp, |argv|, |envp|, |auxv|, from)
            case Some(slot) => exists j: nat :: FirstEntry(auxv, from, j) && ReadWord(arch, mem, slot) == auxv[j].value
            case None => forall k :: from <= k < |auxv| ==> auxv[k].kind != AT_ENTRY
    decreases |auxv| - from
  {
    if from == |auxv| {
    } else {
      AuxiliaryWords(arch, mem, sp, argv, envp, auxv, from);
      if auxv[from].kind == AT_ENTRY {
        assert FirstEntry(auxv, from, from);
      } else {
        EntrySlotIsFirst(arch, mem, sp, argv, envp, auxv, from + 1);
        match EntrySlot(arch, mem, sp, |argv|, |envp|, |auxv|, from + 1)
        case Some(slot) =>
          var j: nat :| FirstEntry(auxv, from + 1, j) && ReadWord(arch, mem, slot) == auxv[j].value;
          assert FirstEntry(auxv, from, j);
        case None =>
      }
    }
  }

  /** `(-0x05ec1cff & ~1) | (entry & 1)` as a machine word. */
  function BreakAddr(arch: Arch, entry: nat): nat
  {
    WordLimit(arch) - 0x05ec_1d00 + entry % 2
  }

  /** A stop of the process: its memory and registers, and whether it is a SIGSEGV. */
  datatype Stop = Stop(machine: Machine, segv: bool)

  datatype Outside = Outside(
    atEntry: Stop, libcReturn: nat, dlopenAddr: nat, dlsymAddr: nat, libPath: Bytes, tmpPath: Bytes)

  const ENTRY_SYMBOL: Bytes := [101, 110, 116, 114, 121] // "entry"

  /** Room for three strings and three calls with two arguments each. */
  predicate Roomy(o: Outside)
  {
    o.atEntry.machine.regs.sp >= |o.libPath| + |o.tmpPath| + 512
  }

  lemma PushTakesLittle(arch: Arch, sp: nat, text: Bytes)
    requires |text| + 1 <= sp < WordLimit(arch)
    ensures PushAddress(arch, sp, text) >= sp - |text| - 16
  {
    AlignWithoutWrap(arch, sp - (|text| + 1), 0);
  }

  lemma CallTakesLittle(arch: Arch, sp: nat, args: seq<nat>)
    requires |args| == 2 && 64 <= sp < WordLimit(arch)
    ensures CallFits(arch, sp, args)
    ensures CallSp(arch, sp, args) >= sp - 40
  {
    assert SpillBytes(arch, args) == if arch == I386 then 8 else 0;
    AlignWithoutWrap(arch, sp, 0);
    AlignWithoutWrap(arch, AlignStack(arch, sp, 0), SpillBytes(arch, args));
  }

  type Callee = (Machine, nat) -> Stop

  ghost predicate KeepsShape(callee: Callee)
  {
    forall m: Machine, n: nat :: callee(m, n).machine.regs.Valid()
  }

  /** The process faulted at the return address, which is how a call is seen to return. */
  predicate Returned(stop: Stop, ret: nat)
  {
    stop.segv && stop.machine.regs.ip == ret
  }

  /**
   A callee may return, crash or stop anywhere. It leaves the stack of its caller, from above its own arguments up to
   `top`, as it was; and if it returns, the stack pointer is restored.
   */
  ghost predicate Behaves(arch: Arch, top: nat, ret: nat, entry: Machine, argBytes: nat, stop: Stop)
  {
    && stop.machine.regs.Valid() && stop.machine.regs.Fits(arch)
    && SameOn(entry.mem, stop.machine.mem, entry.regs.sp + ReturnPop(arch) + argBytes, top)
    && (Returned(stop, ret) ==> stop.machine.regs.sp == entry.regs.sp + ReturnPop(arch))
  }

  ghost predicate AlwaysBehaves(arch: Arch, top: nat, ret: nat, callee: Callee)
  {
    forall m: Machine, n: nat :: Behaves(arch, top, ret, m, n, callee(m, n))
  }

  lemma BehavingKeepsShape(arch: Arch, top: nat, ret: nat, callee: Callee)
    requires AlwaysBehaves(arch, top, ret, callee)
    ensures KeepsShape(callee)
  {
    forall m: Machine, n: nat
      ensures callee(m, n).machine.regs.Valid()
    {
      assert Behaves(arch, top, ret, m, n, callee(m, n));
    }
  }

  /** However a call inside a session ends, nothing at or above the session's start has changed. */
  lemma CallWritesBelow(
    arch: Arch, top: nat, mem0: Mem, sp0: nat, s: Session, func: nat, ret: nat, args: seq<nat>, stop: Stop)
    requires SessionInv(arch, top, mem0, sp0, s) && CallFits(arch, s.now.regs.sp, args)
    requires Behaves(arch, top, ret, Setup(arch, s.now, func, ret, args), SpillBytes(arch, args), stop)
    ensures SameOn(mem0, stop.machine.mem, sp0, top)
  {
    var sp := s.now.regs.sp;
    var entry := Setup(arch, s.now, func, ret, args);
    CallStaysBelow(arch, sp, args);
    SetupWritesBelow(arch, s.now, func, ret, args, top);
    assert SameOn(s.now.mem, entry.mem, sp0, top) && SameOn(entry.mem, stop.machine.mem, sp0, top);
    SameTransitive(mem0, s.now.mem, entry.mem, sp0, top);
    SameTransitive(mem0, entry.mem, stop.machine.mem, sp0, top);
  }

  /** What a call returns; one that stops anywhere else returns 0. */
  function ResultOf(arch: Arch, ret: nat, stop: Stop): nat
    requires stop.machine.regs.Valid()
  {
    if Returned(stop, ret) then stop.machine.regs.gpr[ReturnRegister(arch)] else 0
  }

  /** The machine after a call, and the value it returns; a call that stops anywhere else returns 0. */
  ghost function Called(arch: Arch, m: Machine, func: nat, ret: nat, args: seq<nat>, callee: Callee): (Machine, nat)
    requires m.regs.Valid() && KeepsShape(callee)
  {
    var stop := callee(Setup(arch, m, func, ret, args), SpillBytes(arch, args));
    (stop.machine, ResultOf(arch, ret, stop))
  }

  /** Push a string, then call with its address last, or first and followed by `other`. */
  ghost function CalledWith(
    arch: Arch, m: Machine, text: Bytes, func: nat, ret: nat, first: Option<nat>, other: nat, callee: Callee)
    : (Machine, nat)
    requires m.regs.Valid() && KeepsShape(callee)
  {
    var str := PushAddress(arch, m.regs.sp, text);
    Called(arch, PushText(arch, m, text), func, ret, if first.Some? then [first.value, str] else [str, other], callee)
  }

  datatype Lookup = Lookup(machine: Machine, handle: nat, injector: nat)

  /** `dlopen(lib, RTLD_NOW)` and `dlsym(handle, "entry")`; nothing if one of them finds nothing. */
  ghost function LookedUp(arch: Arch, m: Machine, o: Outside, callee: Callee): Option<Lookup>
    requires m.regs.Valid() && KeepsShape(callee)
  {
    if o.dlopenAddr == 0 then None
    else
      var (m1, handle) := CalledWith(arch, m, o.libPath, o.dlopenAddr, o.libcReturn, None, RTLD_NOW, callee);
      if handle == 0 || o.dlsymAddr == 0 then None
      else
        var (m2, entry) := CalledWith(arch, m1, ENTRY_SYMBOL, o.dlsymAddr, o.libcReturn, Some(handle), 0, callee);
        if entry == 0 then None else Some(Lookup(m2, handle, entry))
  }

  // ------------------------------------------------------- what the process is entered with

  /** The process is about to execute `func`, which will return to `ret`, on an aligned stack. */
  ghost predicate Enters(arch: Arch, entry: Machine, func: nat, ret: nat)
  {
    && entry.regs.Valid()
    && entry.regs.ip == (if arch == Arm then func - func % 2 else func)
    && (arch == Arm ==> entry.regs.gpr[CPSR_ARM] / 32 % 2 == func % 2)
    && ReturnAddress(arch, entry) == ret
    && (entry.regs.sp + ReturnPop(arch)) % 16 == 0
  }

  /** The text and its terminator can be read at `a`. */
  ghost predicate TextAt(mem: Mem, a: nat, text: Bytes)
  {
    ReadBytes(mem, a, |text| + 1) == text + [0]
  }

  function TwoArgBytes(arch: Arch): nat
  {
    if arch == I386 then 8 else 0
  }

  /** `func` is entered with the string first, or with it second after `first`. */
  ghost predicate EntersWithText(
    arch: Arch, entry: Machine, func: nat, ret: nat, text: Bytes, first: Option<nat>, other: nat)
  {
    && Enters(arch, entry, func, ret)
    && (match first
        case Some(a) => ArgumentOf(arch, entry, 0) == a && TextAt(entry.mem, ArgumentOf(arch, entry, 1), text)
        case None => TextAt(entry.mem, ArgumentOf(arch, entry, 0), text) && ArgumentOf(arch, entry, 1) == other)
  }

  /** `dlopen` is called with the library's path and RTLD_NOW, and `dlsym` with the handle it returned and "entry". */
  ghost predicate LookupCalls(arch: Arch, o: Outside, callee: Callee, e: seq<Machine>, handle: nat, injector: nat)
    requires KeepsShape(callee)
  {
    && |e| == 2
    && EntersWithText(arch, e[0], o.dlopenAddr, o.libcReturn, o.libPath, None, RTLD_NOW)
    && handle == ResultOf(arch, o.libcReturn, callee(e[0], TwoArgBytes(arch))) != 0
    && EntersWithText(arch, e[1], o.dlsymAddr, o.libcReturn, ENTRY_SYMBOL, Some(handle), 0)
    && injector == ResultOf(arch, o.libcReturn, callee(e[1], TwoArgBytes(arch))) != 0
  }

  /** No function to call, or the last call made, as it should be, found nothing. */
  ghost predicate LookupFailed(arch: Arch, o: Outside, callee: Callee, e: seq<Machine>)
    requires KeepsShape(callee)
  {
    if |e| == 0 then o.dlopenAddr == 0
    else
      && EntersWithText(arch, e[0], o.dlopenAddr, o.libcReturn, o.libPath, None, RTLD_NOW)
      && (var handle := ResultOf(arch, o.libcReturn, callee(e[0], TwoArgBytes(arch)));
          if |e| == 1 then handle == 0 || o.dlsymAddr == 0
          else
            && |e| == 2 && handle != 0
            && EntersWithText(arch, e[1], o.dlsymAddr, o.libcReturn, ENTRY_SYMBOL, Some(handle), 0)
            && ResultOf(arch, o.libcReturn, callee(e[1], TwoArgBytes(arch))) == 0)
  }

  /**
   Exactly three calls: these two, and what the second returned with the handle and the path of the working directory.
   */
  ghost predicate InjectorCalls(arch: Arch, o: Outside, callee: Callee, e: seq<Machine>)
    requires KeepsShape(callee)
  {
    |e| == 3 && EntryFollows(arch, o, callee, e[..2], e[2])
  }

  ghost predicate EntryFollows(arch: Arch, o: Outside, callee: Callee, lookup: seq<Machine>, last: Machine)
    requires KeepsShape(callee)
  {
    exists handle, injector ::
      && LookupCalls(arch, o, callee, lookup, handle, injector)
      && EntersWithText(arch, last, injector, o.libcReturn, o.tmpPath, Some(handle), 0)
  }

  /** A call with two arguments, the first or the second of which is the string pushed last. */
  lemma CallEnters(arch: Arch, top: nat, mem0: Mem, sp0: nat, s: Session, func: nat, ret: nat, args: seq<nat>)
    requires SessionInv(arch, top, mem0, sp0, s) && CallFits(arch, s.now.regs.sp, args)
    requires |args| == 2 && args[0] < WordLimit(arch) && args[1] < WordLimit(arch) && ret < WordLimit(arch)
    ensures
      var entry := Setup(arch, s.now, func, ret, args);
      Enters(arch, entry, func, ret) && ArgumentOf(arch, entry, 0) == args[0] && ArgumentOf(arch, entry, 1) == args[1]
  {
    EntersFunction(arch, s.now, func, ret, args);
    ReturnAddressPlaced(arch, s.now, func, ret, args);
    ArgumentsArrive(arch, s.now, func, ret, args, 0);
    ArgumentsArrive(arch, s.now, func, ret, args, 1);
    EntryAligned(arch, s.now, func, ret, args);
  }

  lemma EntryAligned(arch: Arch, m: Machine, func: nat, ret: nat, args: seq<nat>)
    requires m.regs.Valid() && m.regs.sp < WordLimit(arch) && CallFits(arch, m.regs.sp, args)
    ensures (Setup(arch, m, func, ret, args).regs.sp + ReturnPop(arch)) % 16 == 0
  {
    CallStaysBelow(arch, m.regs.sp, args);
    SetupWritesBelow(arch, m, func, ret, args, 0);
  }

  /** The strings pushed before are still there when the process is entered. */
  lemma TextSurvives(
    arch: Arch, top: nat, mem0: Mem, sp0: nat, s: Session, func: nat, ret: nat, args: seq<nat>, i: nat)
    requires SessionInv(arch, top, mem0, sp0, s) && CallFits(arch, s.now.regs.sp, args) && i < |s.pushed|
    ensures
      var entry := Setup(arch, s.now, func, ret, args);
      ReadBytes(entry.mem, s.pushed[i].addr, |s.pushed[i].bytes|) == s.pushed[i].bytes
  {
    assert Stacked(s, sp0, i) && Intact(s, i);
    BelowStart(s, sp0, i);
    SetupWritesBelow(arch, s.now, func, ret, args, top);
    var entry := Setup(arch, s.now, func, ret, args);
    SameReads(s.now.mem, entry.mem, s.pushed[i].addr, |s.pushed[i].bytes|, s.now.regs.sp, top);
  }

  /** A call right after a push: what the process is entered with, and what is left however it stops. */
  lemma CallInSession(
    arch: Arch, top: nat, mem0: Mem, sp0: nat, s: Session, text: Bytes, func: nat, ret: nat,
    first: Option<nat>, other: nat, args: seq<nat>, stop: Stop)
    requires SessionInv(arch, top, mem0, sp0, s) && s.now.regs.sp >= 64 && ret < WordLimit(arch)
    requires other < WordLimit(arch) && (first.Some? ==> first.value < WordLimit(arch))
    requires s.pushed != [] && s.pushed[|s.pushed| - 1] == Pushed(s.now.regs.sp, text + [0])
    requires args == if first.Some? then [first.value, s.now.regs.sp] else [s.now.regs.sp, other]
    requires CallFits(arch, s.now.regs.sp, args) && SpillBytes(arch, args) == TwoArgBytes(arch)
    requires Behaves(arch, top, ret, Setup(arch, s.now, func, ret, args), TwoArgBytes(arch), stop)
    ensures EntersWithText(arch, Setup(arch, s.now, func, ret, args), func, ret, text, first, other)
    ensures SameOn(mem0, stop.machine.mem, sp0, top)
    ensures Returned(stop, ret) ==>
              && SessionInv(arch, top, mem0, sp0, Session(stop.machine, s.pushed))
              && stop.machine.regs.sp >= s.now.regs.sp - 40
  {
    CallEnters(arch, top, mem0, sp0, s, func, ret, args);
    TextSurvives(arch, top, mem0, sp0, s, func, ret, args, |s.pushed| - 1);
    CallWritesBelow(arch, top, mem0, sp0, s, func, ret, args, stop);
    if Returned(stop, ret) {
      CallTakesLittle(arch, s.now.regs.sp, args);
      EntryBelow(arch, s.now.regs.sp, args);
      SetupWritesBelow(arch, s.now, func, ret, args, top);
      CallKeeps(arch, top, mem0, sp0, s, Call(func, ret, args, stop.machine));
    }
  }

  /** The process stopped where the replaced entry sent it. */
  predicate StoppedAtBreak(arch: Arch, stop: Stop, entry: nat)
  {
    stop.segv && stop.machine.regs.ip / 2 == BreakAddr(arch, entry) / 2
  }

  /** What the injection needs once the slot is found: the stop at the replaced entry, the library and its entry. */
  ghost predicate Succeeds(arch: Arch, o: Outside, callee: Callee, slot: nat, entry: nat)
    requires o.atEntry.machine.regs.Valid() && KeepsShape(callee)
  {
    var m := o.atEntry.machine;
    && StoppedAtBreak(arch, o.atEntry, entry)
    && LookedUp(arch, Machine(WriteWord(arch, m.mem, slot, entry), m.regs), o, callee).Some?
  }

  /** In the last 0x05ec1d00 bytes of the address space, and even or odd like the entry. */
  lemma BreakAddrIsHigh(arch: Arch, entry: nat)
    ensures WordLimit(arch) - 0x05ec_1d00 <= BreakAddr(arch, entry) < WordLimit(arch)
    ensures BreakAddr(arch, entry) % 2 == entry % 2
  {
  }

  /** The process is set running as it was, with nothing changed but the slot, which holds such an address. */
  ghost predicate SentToBreak(arch: Arch, started: Machine, mem: Mem, regs: Regs, slot: nat)
  {
    && started.regs == regs
    && SameOn(mem, started.mem, 0, slot)
    && (forall a: nat :: slot + WordSize(arch) <= a ==> Peek(started.mem, a) == Peek(mem, a))
    && WordLimit(arch) - 0x05ec_1d00 <= ReadWord(arch, started.mem, slot)
    && ReadWord(arch, started.mem, slot) % 2 == ReadWord(arch, mem, slot) % 2
  }

  lemma SentToBreakHolds(arch: Arch, mem: Mem, regs: Regs, slot: nat)
    ensures
      var entry := ReadWord(arch, mem, slot);
      SentToBreak(arch, Machine(WriteWord(arch, mem, slot, BreakAddr(arch, entry)), regs), mem, regs, slot)
  {
    var address := BreakAddr(arch, ReadWord(arch, mem, slot));
    BreakAddrIsHigh(arch, ReadWord(arch, mem, slot));
    ReadWordBack(arch, mem, slot, address);
    WriteElsewhere(mem, slot, Encode(address, WordSize(arch)), 0, slot);
  }

  /** First the process is sent to the replaced entry, then come the calls. */
  ghost predicate Resumed(
    arch: Arch, before: seq<Machine>, after: seq<Machine>, calls: seq<Machine>, mem: Mem, regs: Regs, slot: nat)
  {
    && |after| == |before| + 1 + |calls|
    && after[|before| + 1..] == calls
    && SentToBreak(arch, after[|before|], mem, regs, slot)
  }

  lemma ResumedHolds(
    arch: Arch, before: seq<Machine>, first: Machine, calls: seq<Machine>, mem: Mem, regs: Regs, slot: nat)
    requires SentToBreak(arch, first, mem, regs, slot)
    ensures Resumed(arch, before, before + [first] + calls, calls, mem, regs, slot)
  {
  }

  /** Up to its next stop the process does not write to the slot, whose replaced value differs from the original. */
  predicate LeavesSlot(arch: Arch, o: Outside, slot: nat, entry: nat)
  {
    ReadWord(arch, o.atEntry.machine.mem, slot) == BreakAddr(arch, entry) != entry
  }

  class Tracee {
    const arch: Arch
    var mem: Mem
    /** the registers of the process */
    var live: Regs
    /** the tracer's copy */
    var regs: Regs
    /** the memory and registers with which the process was set running, in order */
    ghost var resumed: seq<Machine>

    constructor (arch: Arch, mem: Mem, live: Regs)
      ensures this.arch == arch && this.mem == mem && this.live == live && this.regs == live && resumed == []
    {
      this.arch, this.mem, this.live, this.regs, resumed := arch, mem, live, live, [];
    }

    /** `align_stack` */
    method Align(preserve: nat)
      requires regs.sp < WordLimit(arch)
      modifies this`regs
      ensures regs == old(regs).(sp := AlignStack(arch, old(regs.sp), preserve))
    {
      AlignStackIsMask(arch, regs.sp, preserve);
      regs := regs.(sp := And(Minus(arch, regs.sp, preserve), WordLimit(arch) - 16));
    }

    method PushString(text: Bytes) returns (addr: nat)
      requires regs.sp < WordLimit(arch)
      modifies this`mem, this`regs
      ensures Machine(mem, regs) == PushText(arch, old(Machine(mem, regs)), text)
      ensures addr == PushAddress(arch, old(regs.sp), text)
    {
      regs := regs.(sp := Minus(arch, regs.sp, |text| + 1));
      Align(0);
      addr := regs.sp;
      mem := WriteBytes(mem, addr, text + [0]);
    }

    /** `callee` says how the process, entered with some frame, reaches its next stop. */
    method RemoteCall(func: nat, ret: nat, args: seq<nat>, callee: Callee) returns (r: nat)
      requires regs.Valid() && KeepsShape(callee)
      modifies this`mem, this`regs, this`live, this`resumed
      ensures (Machine(mem, regs), r) == Called(arch, old(Machine(mem, regs)), func, ret, args, callee)
      ensures resumed == old(resumed) + [Setup(arch, old(Machine(mem, regs)), func, ret, args)]
      ensures live == regs && regs.Valid()
    {
      var entry := Setup(arch, Machine(mem, regs), func, ret, args);
      mem, regs := entry.mem, entry.regs;
      live := regs;
      resumed := resumed + [Machine(mem, live)];
      var stop := callee(Machine(mem, live), SpillBytes(arch, args));
      mem, live := stop.machine.mem, stop.machine.regs;
      regs := live;
      if stop.segv {
        if regs.ip != ret {
          return 0;
        }
        return regs.gpr[ReturnRegister(arch)];
      }
      return 0;
    }

    /**
     Both walks end, the second at the value of the first AT_ENTRY record or, if there is none, at the null record.
     */
    method WalkStack(ghost env: nat, ghost aux: nat) returns (entry: nat, slot: nat)
      requires InitialStack(arch, mem, live.sp, Decode(ReadBytes(mem, live.sp, 4)), env, aux)
      ensures
        var argc := Decode(ReadBytes(mem, live.sp, 4));
        match EntrySlot(arch, mem, live.sp, argc, env, aux, 0)
        case Some(a) => slot == a && entry == ReadWord(arch, mem, a)
        case None => slot == 0 && entry == 0
    {
      var w := WordSize(arch);
      var argc := Decode(ReadBytes(mem, live.sp, 4));
      var argv := live.sp + w;
      var p := argv + Words(arch, argc + 1);
      ghost var i: nat := 0;
      while ReadWord(arch, mem, p) != 0
        invariant i <= env && p == EnvAddr(arch, live.sp, argc, i)
        decreases env - i
      {
        p := p + w;
        i := i + 1;
      }
      p := p + w;
      var v := p;
      entry, slot := 0, 0;
      ghost var j: nat := 0;
      while true
        invariant j <= aux && v == AuxAddr(arch, live.sp, argc, env, j)
        invariant EntrySlot(arch, mem, live.sp, argc, env, aux, 0) == EntrySlot(arch, mem, live.sp, argc, env, aux, j)
        invariant entry == 0 && slot == 0
        decreases aux - j
      {
        var recordType := ReadWord(arch, mem, v);
        if recordType == AT_ENTRY {
          entry := ReadWord(arch, mem, v + w);
          slot := v + w;
          break;
        }
        if recordType == AT_NULL {
          break;
        }
        v := v + 2 * w;
        j := j + 1;
      }
    }

    /**
     One push followed by one call with two arguments, inside a session in order: the process enters the function with
     the string's address and the other argument in their places. The session goes on in order if the call returned
     something, and however the call ended nothing above the session's start has changed.
     */
    method PushAndCall(
      text: Bytes, func: nat, ret: nat, first: Option<nat>, other: nat, callee: Callee,
      ghost top: nat, ghost mem0: Mem, ghost sp0: nat, ghost pushed: seq<Pushed>)
      returns (r: nat, ghost pushed': seq<Pushed>, ghost entry: Machine)
      requires SessionInv(arch, top, mem0, sp0, Session(Machine(mem, regs), pushed))
      requires AlwaysBehaves(arch, top, ret, callee) && ret < WordLimit(arch)
      requires regs.sp >= |text| + 128 && other < WordLimit(arch) && (first.Some? ==> first.value < WordLimit(arch))
      modifies this`mem, this`regs, this`live, this`resumed
      ensures KeepsShape(callee)
      ensures (Machine(mem, regs), r) ==
              CalledWith(arch, old(Machine(mem, regs)), text, func, ret, first, other, callee)
      ensures resumed == old(resumed) + [entry] && EntersWithText(arch, entry, func, ret, text, first, other)
      ensures r == ResultOf(arch, ret, callee(entry, TwoArgBytes(arch))) && r < WordLimit(arch)
      ensures r != 0 ==>
                && SessionInv(arch, top, mem0, sp0, Session(Machine(mem, regs), pushed'))
                && regs.sp >= old(regs.sp) - |text| - 64
      ensures SameOn(mem0, mem, sp0, top)
    {
      BehavingKeepsShape(arch, top, ret, callee);
      ghost var s0 := Session(Machine(mem, regs), pushed);
      PushKeeps(arch, top, mem0, sp0, s0, text);
      PushTakesLittle(arch, regs.sp, text);
      PushStaysBelow(arch, regs.sp, text);
      var str := PushString(text);
      ghost var s1 := Do(arch, s0, Push(text));
      pushed' := s1.pushed;
      assert s1 == Session(Machine(mem, regs), pushed');
      var args := if first.Some? then [first.value, str] else [str, other];
      CallTakesLittle(arch, regs.sp, args);
      entry := Setup(arch, s1.now, func, ret, args);
      assert SpillBytes(arch, args) == TwoArgBytes(arch);
      ghost var stop := callee(entry, TwoArgBytes(arch));
      assert Behaves(arch, top, ret, entry, TwoArgBytes(arch), stop);
      CallInSession(arch, top, mem0, sp0, s1, text, func, ret, first, other, args, stop);
      r := RemoteCall(func, ret, args, callee);
    }

    /** Load the library and look up its entry. */
    method LookUp(o: Outside, callee: Callee, ghost top: nat)
      returns (handle: nat, injector: nat, ghost calls: seq<Machine>, ghost pushed: seq<Pushed>)
      requires regs == o.atEntry.machine.regs && regs.Valid() && Roomy(o) && regs.sp <= top < WordLimit(arch)
      requires AlwaysBehaves(arch, top, o.libcReturn, callee) && o.libcReturn < WordLimit(arch)
      modifies this`mem, this`regs, this`live, this`resumed
      ensures KeepsShape(callee)
      ensures injector != 0 <==> LookedUp(arch, old(Machine(mem, regs)), o, callee).Some?
      ensures resumed == old(resumed) + calls
      ensures injector == 0 ==> LookupFailed(arch, o, callee, calls)
      ensures injector != 0 ==>
                && LookupCalls(arch, o, callee, calls, handle, injector) && handle < WordLimit(arch)
                && SessionInv(arch, top, old(mem), old(regs.sp), Session(Machine(mem, regs), pushed))
                && regs.sp >= old(regs.sp) - |o.libPath| - 133
      ensures SameOn(old(mem), mem, old(regs.sp), top)
    {
      BehavingKeepsShape(arch, top, o.libcReturn, callee);
      ghost var mem0, sp0 := mem, regs.sp;
      ghost var entry: Machine;
      handle, injector, calls, pushed := 0, 0, [], [];
      if o.dlopenAddr == 0 {
        return;
      }
      handle, pushed, entry :=
        PushAndCall(o.libPath, o.dlopenAddr, o.libcReturn, None, RTLD_NOW, callee, top, mem0, sp0, pushed);
      calls := [entry];
      if handle == 0 || o.dlsymAddr == 0 {
        return;
      }
      injector, pushed, entry :=
        PushAndCall(ENTRY_SYMBOL, o.dlsymAddr, o.libcReturn, Some(handle), 0, callee, top, mem0, sp0, pushed);
      calls := calls + [entry];
    }

    /** Call the library's entry, whatever it does. */
    method CallEntry(
      o: Outside, handle: nat, injector: nat, callee: Callee,
      ghost top: nat, ghost mem0: Mem, ghost sp0: nat, ghost pushed: seq<Pushed>)
      returns (ghost entry: Machine)
      requires SessionInv(arch, top, mem0, sp0, Session(Machine(mem, regs), pushed))
      requires AlwaysBehaves(arch, top, o.libcReturn, callee) && o.libcReturn < WordLimit(arch)
      requires regs.sp >= |o.tmpPath| + 128 && handle < WordLimit(arch)
      modifies this`mem, this`regs, this`live, this`resumed
      ensures KeepsShape(callee) && resumed == old(resumed) + [entry]
      ensures EntersWithText(arch, entry, injector, o.libcReturn, o.tmpPath, Some(handle), 0)
      ensures SameOn(mem0, mem, sp0, top)
    {
      var ignored: nat;
      ghost var more: seq<Pushed>;
      ignored, more, entry :=
        PushAndCall(o.tmpPath, injector, o.libcReturn, Some(handle), 0, callee, top, mem0, sp0, pushed);
    }

    /**
     The three calls: load the library, look up its entry, call it with the handle and the path; `InjectorCalls` says
     with what the process is entered. However they end, and the last one may crash, the memory from the stack pointer
     upwards is as before.
     */
    method CallInjector(o: Outside, callee: Callee, ghost top: nat) returns (ok: bool, ghost calls: seq<Machine>)
      requires regs == o.atEntry.machine.regs && regs.Valid() && Roomy(o) && regs.sp <= top < WordLimit(arch)
      requires AlwaysBehaves(arch, top, o.libcReturn, callee) && o.libcReturn < WordLimit(arch)
      modifies this`mem, this`regs, this`live, this`resumed
      ensures KeepsShape(callee)
      ensures ok <==> LookedUp(arch, old(Machine(mem, regs)), o, callee).Some?
      ensures resumed == old(resumed) + calls
      ensures if ok then InjectorCalls(arch, o, callee, calls) else LookupFailed(arch, o, callee, calls)
      ensures SameOn(old(mem), mem, old(regs.sp), top)
    {
      var handle, injector;
      ghost var found, pushed;
      handle, injector, found, pushed := LookUp(o, callee, top);
      if injector == 0 {
        return false, found;
      }
      ghost var entry := CallEntry(o, handle, injector, callee, top, old(mem), old(regs.sp), pushed);
      calls := found + [entry];
      assert calls[..2] == found;
      return true, calls;
    }

    /** The slot `inject_on_main` works on: the value of the first AT_ENTRY record of the initial stack. */
    ghost function Slot(env: nat, aux: nat): Option<nat>
      reads this
    {
      EntrySlot(arch, mem, live.sp, Decode(ReadBytes(mem, live.sp, 4)), env, aux, 0)
    }

    /** From the next stop of the process on: put the entry back, make the calls, restore the registers. */
    method RunAtStop(o: Outside, callee: Callee, entry: nat, slot: nat, ghost top: nat)
      returns (ok: bool, ghost calls: seq<Machine>)
      requires o.atEntry.machine.regs.Valid() && Roomy(o) && o.atEntry.machine.regs.sp <= top < WordLimit(arch)
      requires o.atEntry.machine.regs.sp <= slot && slot + WordSize(arch) <= top && entry < WordLimit(arch)
      requires AlwaysBehaves(arch, top, o.libcReturn, callee) && o.libcReturn < WordLimit(arch)
      modifies this
      ensures KeepsShape(callee) && (ok <==> Succeeds(arch, o, callee, slot, entry))
      ensures ok ==> live == o.atEntry.machine.regs.(ip := entry) && InjectorCalls(arch, o, callee, calls)
      ensures resumed == old(resumed) + calls
      ensures !ok && StoppedAtBreak(arch, o.atEntry, entry) ==> LookupFailed(arch, o, callee, calls)
      ensures StoppedAtBreak(arch, o.atEntry, entry) ==> ReadWord(arch, mem, slot) == entry
      ensures !StoppedAtBreak(arch, o.atEntry, entry) ==> Machine(mem, live) == o.atEntry.machine
    {
      BehavingKeepsShape(arch, top, o.libcReturn, callee);
      mem, live := o.atEntry.machine.mem, o.atEntry.machine.regs;
      if !o.atEntry.segv {
        return false, [];
      }
      regs := live;
      if regs.ip / 2 != BreakAddr(arch, entry) / 2 {
        return false, [];
      }
      mem := WriteWord(arch, mem, slot, entry);
      var backup := regs;
      ghost var mem0 := mem;
      ReadWordBack(arch, o.atEntry.machine.mem, slot, entry);
      ok, calls := CallInjector(o, callee, top);
      SameReads(mem0, mem, slot, WordSize(arch), backup.sp, top);
      if ok {
        live := backup.(ip := entry);
      }
    }

    /**
     The injection succeeds exactly if there is an entry record with a value, the process stops at the replaced entry,
     and the three calls find what they need. Then the AT_ENTRY slot holds its original value again and the
     registers of the process are those of that stop, except that the program counter is the real entry. The slot is
     left with the replaced value, in a process that does not write to it, exactly if there was an entry and the
     process did not stop at it; without an entry nothing is written. The process is first set running with only the
     slot changed, and then, if the injection succeeds, by exactly the calls of `InjectorCalls`.
     */
    method InjectOnMain(o: Outside, callee: Callee, ghost env: nat, ghost aux: nat, ghost top: nat)
      returns (ok: bool, ghost calls: seq<Machine>)
      requires InitialStack(arch, mem, live.sp, Decode(ReadBytes(mem, live.sp, 4)), env, aux)
      requires o.atEntry.machine.regs.Valid() && Roomy(o) && o.atEntry.machine.regs.sp <= top < WordLimit(arch)
      requires Slot(env, aux).Some? ==>
                 o.atEntry.machine.regs.sp <= Slot(env, aux).value && Slot(env, aux).value + WordSize(arch) <= top
      requires AlwaysBehaves(arch, top, o.libcReturn, callee) && o.libcReturn < WordLimit(arch)
      modifies this
      ensures KeepsShape(callee)
      ensures ok <==>
                && old(Slot(env, aux)).Some?
                && ReadWord(arch, old(mem), old(Slot(env, aux)).value) != 0
                && (var slot := old(Slot(env, aux)).value;
                    Succeeds(arch, o, callee, slot, ReadWord(arch, old(mem), slot)))
      ensures ok ==> InjectorCalls(arch, o, callee, calls)
      ensures !ok && old(Slot(env, aux)).Some? ==>
                var entry := ReadWord(arch, old(mem), old(Slot(env, aux)).value);
                entry != 0 && StoppedAtBreak(arch, o.atEntry, entry) ==> LookupFailed(arch, o, callee, calls)
      ensures old(Slot(env, aux)).Some? && ReadWord(arch, old(mem), old(Slot(env, aux)).value) != 0 ==>
                Resumed(arch, old(resumed), resumed, calls, old(mem), old(live), old(Slot(env, aux)).value)
      ensures ok ==>
                var slot := old(Slot(env, aux)).value;
                && ReadWord(arch, mem, slot) == ReadWord(arch, old(mem), slot)
                && live == o.atEntry.machine.regs.(ip := ReadWord(arch, old(mem), slot))
      ensures old(Slot(env, aux)).None? || ReadWord(arch, old(mem), old(Slot(env, aux)).value) == 0 ==> mem == old(mem)
      ensures old(Slot(env, aux)).Some? ==>
                var slot := old(Slot(env, aux)).value;
                LeavesSlot(arch, o, slot, ReadWord(arch, old(mem), slot)) ==>
                  (ReadWord(arch, mem, slot) != ReadWord(arch, old(mem), slot) <==>
                    ReadWord(arch, old(mem), slot) != 0 &&
                      !StoppedAtBreak(arch, o.atEntry, ReadWord(arch, old(mem), slot)))
    {
      BehavingKeepsShape(arch, top, o.libcReturn, callee);
      regs := live;
      var entry, slot := WalkStack(env, aux);
      if entry == 0 {
        return false, [];
      }
      EntryIsWord(arch, mem, slot);
      mem := WriteWord(arch, mem, slot, BreakAddr(arch, entry));
      SentToBreakHolds(arch, old(mem), live, slot);
      ghost var first := Machine(mem, live);
      resumed := resumed + [first];
      ok, calls := RunAtStop(o, callee, entry, slot, top);
      ResumedHolds(arch, old(resumed), first, calls, old(mem), old(live), slot);
    }
  }

  lemma EntryIsWord(arch: Arch, mem: Mem, a: nat)
    ensures ReadWord(arch, mem, a) < WordLimit(arch)
  {
    EncodeDecode(ReadBytes(mem, a, WordSize(arch)));
    WordFits(arch);
  }
}
