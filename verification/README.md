# ReZygisk: verified model of the loader and the daemon

This project models, in Dafny, seven parts of ReZygisk whose correctness rests on state machines, indexes, codecs or
address arithmetic, and proves what they promise for every input, every run and every interleaving. The kernel, the
JVM and the remote process are small explicit models beside the code.

| part | files |
|---|---|
| symbol lookup in an ELF image | `ElfHash`, `Bitwise`, `SymbolTable`, `GnuTable`, `GnuBuilder`, `SysvTable`, `ElfImage`, `SectionScan` |
| the init monitor | `CrashLoop`, `Ptrace`, `MonitorModel`, `MonitorProofs`, `MonitorSteps`, `Monitor` |
| the companion protocol | `CompanionModel`, `CompanionProofs`, `CompanionDaemon` |
| calls into a traced process and the hijack of its entry | `LittleEndian`, `RemoteMemory`, `RemoteStack`, `EntryHijack` |
| descriptor sanitising, JNI hooking and unhooking | `FdSanitizer`, `JniHooks`, `JniProofs` |
| the wire format | `WireCodec` |
| splitting module.prop | `ModuleProp` |

Code that updates state in place is a class or a method with loops, proved against functions on values
(`Monitor.InitMonitor` against `MonitorModel.Step`, `CompanionDaemon.Daemon` against `CompanionModel.Step`,
`JniHooks.Jvm` against `HookFamilies`, and so on). The properties are proved about those functions, over all runs, and
handed back to the objects by an invariant that every handler keeps (`Serve`, `HookAndRestore`).

`dafny verify dfyconfig.toml` checks everything.

## Where the code does less than one would expect

Each of these is modelled as the code is, shown on a concrete input or run, and delimited by a condition that holds
if and only if the expectation does.

- A stop of init can get stuck. If another stop of init, such as that of a fork, absorbs the interrupt, the handler continues
  init and the state stays STOPPING with nothing pending; a second STOP is ignored
  (`MonitorProofs.ForkAbsorbsInterrupt`). A stop can complete by itself if and only if no such absorption happened since it was
  ordered (`MonitorProofs.StopCompletesIff`).
- An interrupted `recvmsg` is not repeated. The message stays queued, the module gets no descriptor or, from the
  uninitialised control buffer, the one received before it (`WireCodec.SecondModuleGetsFirstLibrary`). The client decodes
  the list if and only if no reception is interrupted (`WireCodec.DecodedIsSentIff`).
- A companion client can be sent two zero bytes. When the child forked by `spawn_companion` fails before `exec`, its error
  returns into the child's copy of the handler, which answers as well (`CompanionProofs.ReturnedChildAnswersTwice`).
  A client gets more than one byte exactly if that happened and its request was then refused
  (`CompanionProofs.ClientRepliesAreExclusive`).
- A child of init that is killed before its first stop is reported leaves its pid in the monitor's `process` set
  (`MonitorProofs.StillbornStaysInLedger`), and so does the 32-bit daemon when it exits, because the check for it compares with
  the 64-bit daemon's pid; it also stays recorded running (`MonitorProofs.DeadDaemonStaysRecorded`). The set is exact if and
  only if no such pid is in it (`MonitorProofs.LedgerIsExact`).
- A process that forks with all of 0 to 1023 open gets a directory descriptor beyond the table of allowed ones, closes it while
  reading, and clears a bit outside the table, where the exempted descriptors are kept
  (`FdSanitizer.FullTableLosesExemption`). The promise about descriptors holds, however that memory ends up, if and only if
  some descriptor below 1024 is free (`FdSanitizer.ConservedIff`).
- `remote_call` copies stack arguments from the start of the argument vector also on targets that pass the first ones in
  registers (`RemoteStack.SeventhArgumentIsTheFirst`). The callee finds the right ones exactly if none are needed or the
  tail repeats the head (`RemoteStack.StackArgumentsAreRightIff`); on i386 that is always.
- Of a hook family only the first matching variant is restored (`JniProofs.SecondVariantStaysHooked`). On a table without
  hooks the methods come back exactly if every family has at most one matching variant, bound to something
  (`JniProofs.UnhookRestoresIff`).
- A name with a NUL byte arrives truncated at the client (`WireCodec.NulNameArrivesEmpty`), and only such a name
  (`WireCodec.ReceivedIsSentIff`).
- An image whose first eligible section has a bias of exactly -4396, the value that stands for "not fixed yet", does not fix
  the bias there (`SectionScan.SentinelBiasIsNotFixed`), and only such an image (`SectionScan.FirstEligibleFixesBias`).
- The module.prop scanner consumes the character that breaks a partial match, so it misses the field name in
  `ddescription=` (`ModuleProp.RepeatedFirstLetterIsMissed`). It finds the first occurrence if and only if no match is under
  way where it begins, or nothing follows it (`ModuleProp.FirstFieldIsFoundIff`); at the beginning of a line none is
  (`ModuleProp.SplitIsAfterDescription`).

## Model

| member | source | states |
|---|---|---|
| `ElfHash.ComputeSysvHash` | loader/src/include/elf_util.h:116-125 | the branch-free loop computes the conditional hash of the gABI section "Hash Table", for every name |
| `ElfHash.RoundsAgree` | loader/src/include/elf_util.h:118-123 | one branch-free round equals one conditional round on every 32-bit word and byte |
| `ElfHash.SysvHashIsBelow2To28` | loader/src/include/elf_util.h:116-125 | the hash of every name stays below 2^28 although the shift and addition can wrap around 32 bits |
| `ElfHash.ComputeGnuHash` | loader/src/include/elf_util.h:127-133 | the 32-bit loop computes 5381 * 33^n plus the base-33 value of the name, modulo 2^32 |
| `GnuTable.Lookup` | loader/src/common/elf_util.cpp:143-166 | on every well-formed table the lookup terminates and equals a plain scan of the hashed symbols: the value of the lowest-index symbol with the name, or 0; an absent table answers 0 |
| `GnuTable.OnlyPastBloom` | loader/src/common/elf_util.cpp:148-152 | a name that fails the Bloom filter is carried by no hashed symbol |
| `GnuTable.OnlyInBucket` | loader/src/common/elf_util.cpp:153-162 | every symbol with the name lies at or after its bucket's start index |
| `Bitwise.ShiftedXorIsZeroIff` | loader/src/common/elf_util.cpp:158-159 | the exclusive-or comparison that the lookup makes holds if and only if the words agree but for their lowest bit |
| `GnuBuilder.BuiltTableIsWellFormed` | loader/src/common/elf_util.cpp:112-124 | every symbol list can be grouped, keeping exactly its symbols, so that a well-formed table for it exists, for every bucket count, filter size, word width and shift |
| `SysvTable.Lookup` | loader/src/common/elf_util.cpp:129-141 | on every well-formed table the chain walk terminates, answers 0 for a name no symbol carries and otherwise the value of a symbol that carries it; with unique names it equals the plain scan |
| `SysvTable.BuiltTableIsWellFormed` | loader/src/common/elf_util.cpp:105-111 | every symbol list has a well-formed table with acyclic chains ending at 0 |
| `ElfImage.HashTablesAgree` | loader/src/common/elf_util.cpp:129-166 | with unique names both lookups give every GNU-hashed symbol its own value |
| `ElfImage.ElfImg.LinearLookup` | loader/src/common/elf_util.cpp:168-187 | the answer is that of an uncached scan, whatever was looked up before: the value of the lowest-index function or object with a non-zero size that carries the name, or 0 if there is none |
| `ElfImage.IndexStep` | loader/src/common/elf_util.cpp:171-180 | inserting the next symbol unless its name is present keeps the map equal to the first-match scan of the symbols seen |
| `ElfImage.SizedScanIs` | loader/src/common/elf_util.cpp:171-180 | the scan of the entries that are kept answers for the first symbol with the name that is a function or object and has a size |
| `ElfImage.ElfImg.GetSymbOffset` | loader/src/common/elf_util.cpp:202-216 | a non-zero answer comes from a table that holds the name; with unique names per table the answer is 0 exactly if no table holds the name with a non-zero value, and the tables are asked in order |
| `ElfImage.UniqueScanIsExact` | loader/src/common/elf_util.cpp:202-216 | with unique names a scan is non-zero exactly if the table holds the name with a non-zero value |
| `ElfImage.AnswersDecideHeld` | loader/src/common/elf_util.cpp:202-216 | with unique names the three answers together decide whether any table holds the name |
| `SectionScan.Headers.constructor` | loader/src/common/elf_util.cpp:64-127 | the bias plus the offset of the first PROGBITS section preceded by a DYNSYM and a STRTAB (and not giving the sentinel) is its address; the last DYNSYM and STRTAB before it are kept; the other tables are the last of the file |
| `SectionScan.LastOfIsLast` | loader/src/common/elf_util.cpp:64-127 | a kept section is of its kind, and none after it in the part of the file that counts is |
| `SectionScan.LastNamedIsLast` | loader/src/common/elf_util.cpp:76-96 | the same for the tables chosen by kind and name |
| `SectionScan.LaterSectionsDoNotMatter` | loader/src/common/elf_util.cpp:64-104 | once the bias is fixed no sections that follow change the bias or the two tables |
| `SectionScan.FirstEligibleFixesBias` | loader/src/common/elf_util.cpp:98-103 | the first eligible section fixes the bias if and only if its bias is not -4396 |
| `SectionScan.SentinelBiasIsNotFixed` | loader/src/common/elf_util.cpp:98-103 | a concrete image whose eligible section has the sentinel bias and whose bias is never fixed |
| `CrashLoop.CountMeasuresShortRun` | loader/src/ptracer/monitor.cpp:344-364 | the counter is at least k exactly if the last k gaps are each under 30 seconds, time 0 standing before the first start |
| `CrashLoop.StopTestIsCrashLoop` | loader/src/ptracer/monitor.cpp:353-364 | for every sequence of starts the stop test is true exactly if the last five gaps are each under 30 seconds |
| `Monitor.InitMonitor.ShouldStopInject` | loader/src/ptracer/monitor.cpp:344-364 | the start is counted, and the answer is whether the last five gaps between all starts of the run so far are each under 30 seconds |
| `Monitor.InitMonitor.EnsureDaemonCreated` | loader/src/ptracer/monitor.cpp:369-404 | the answer is whether a daemon is recorded running afterwards, and over the whole run it has been forked at most once |
| `Monitor.InitMonitor.Handle` | loader/src/ptracer/monitor.cpp:480-635 | one event on the object keeps the invariant, and a child status has exactly the outcome of `LaunchedIff` |
| `Monitor.InitMonitor.Serve` | loader/src/ptracer/monitor.cpp:480-635 | on the object: for any feasible sequence of datagrams, statuses and stops the handlers perform the run of the transition system, and afterwards init is traced as recorded, the ledger is exact up to pids whose first status was a death, the children left stopped are those whose program could not be read, and every launch was guarded |
| `MonitorProofs.InitIsTracedAsRecorded` | loader/src/ptracer/monitor.cpp:204-242 | in every run, whatever the stops of init: before exit init is attached exactly in TRACING or STOPPING; it is never seized twice nor continued or detached when not stopped under trace; in STOPPING a stop is pending if and only if no other stop absorbed the interrupt since it was ordered; no job-control stop is passed on to init |
| `MonitorProofs.StopCompletesIff` | loader/src/ptracer/monitor.cpp:510-544 | in every run that has reached STOPPING, the stop can complete without a new datagram or an unrelated trap if and only if the interrupt was not absorbed |
| `MonitorProofs.LostStaysStopping` | loader/src/ptracer/monitor.cpp:510-544 | after an absorbed interrupt every continuation without a datagram or an unrelated trap stays STOPPING |
| `MonitorProofs.PendingStopCompletes` | loader/src/ptracer/monitor.cpp:510-544 | otherwise a continuation that detaches init is constructed |
| `MonitorProofs.ForkAbsorbsInterrupt` | loader/src/ptracer/monitor.cpp:204-232 | the concrete run: STOP, a fork stop that absorbs the interrupt, and a second STOP leave the state STOPPING with nothing pending and no way to complete |
| `MonitorProofs.ExitingIsAbsorbing` | loader/src/ptracer/monitor.cpp:232-242 | once EXITING, every run stays EXITING and the event loop never runs again |
| `MonitorProofs.LedgerIsExact` | loader/src/ptracer/monitor.cpp:549-629 | in every run `process` equals the reported children still attached if and only if it holds no pid whose first status was a death, be it a child killed before its first stop or the 32-bit daemon, whose exit the checks do not recognise; no child is ever detached when not stopped, so each erased pid was detached once or dead; options are set and children continued only in a stop if and only if no first status was a death; the reported children still attached are exactly those asked to stop at an exec |
| `MonitorProofs.Daemon32ExitIsNotNoticed` | loader/src/ptracer/monitor.cpp:406-419 | in every reachable state the exit of the 32-bit daemon leaves its record as it was and puts its pid into the ledger, or takes it out if it is there |
| `MonitorProofs.DeadDaemonStaysRecorded` | loader/src/ptracer/monitor.cpp:406-419 | the concrete run in which the 32-bit daemon exits, stays recorded running and its pid enters the ledger |
| `MonitorProofs.HaltedIffUnread` | loader/src/ptracer/monitor.cpp:562-568 | in every run the children left in a stop are exactly those whose program could not be read, and a 64-bit daemon recorded running does run |
| `MonitorProofs.HaltedStaysUntilDeath` | loader/src/ptracer/monitor.cpp:562-568 | nothing but its own death ends such a stop |
| `MonitorProofs.NothingToWaitForChangesNothing` | loader/src/ptracer/monitor.cpp:504-508 | in every reachable state a wait without children finds the state STOPPED and ends the loop |
| `MonitorProofs.StillbornStaysInLedger` | loader/src/ptracer/monitor.cpp:549-560 | the concrete run in which a child dies before its first stop and its pid stays |
| `MonitorProofs.LaunchesAreGuarded` | loader/src/ptracer/monitor.cpp:421-443 | in every run a tracer is launched only while TRACING, with its daemon recorded running and no crash loop, and never between a stop and the next accepted START; each ABI's daemon is forked at most once |
| `MonitorSteps.LaunchedIff` | loader/src/ptracer/monitor.cpp:561-629 | in every reachable state a child status launches exactly one tracer, for that child and ABI, if and only if the state is TRACING, the child is known, it stops at an exec of the zygote, the zygote is not crash-looping with this start, its daemon runs or can be started, the child reaches its SIGSTOP and a tracer can be forked; if only the last fails the child is killed; it is then released with SIGSTOP and neither in the ledger nor traced; a refused start, and nothing else, orders a stop |
| `MonitorSteps.OnlyStatusesLaunch` | loader/src/ptracer/monitor.cpp:480-635 | no other event launches a tracer or kills a child |
| `MonitorSteps.InitStopIsAnswered` | loader/src/ptracer/monitor.cpp:510-544 | every stop of init is answered: detached at the trap of an ordered stop, otherwise continued, with its signal exactly if the stop delivers one other than a job-control stop |
| `MonitorSteps.CommandsTakeEffect` | loader/src/ptracer/monitor.cpp:204-325 | in every reachable state: after START the state is TRACING with init attached, after a STOP while tracing a stop is pending, EXIT ends the loop, and the other commands set their flag only |
| `MonitorProofs.StepKeepsInv` | loader/src/ptracer/monitor.cpp:480-635 | every step keeps the attachment, ledger, record and launch invariants |
| `MonitorProofs.RunKeepsInv` | loader/src/ptracer/monitor.cpp:480-635 | so does every run |
| `CompanionDaemon.Daemon.HandleRequest` | zygiskd/src/zygiskd.rs:300-343 | what an undisturbed request does, in terms of the slot before it: an empty slot, or one whose companion is gone, is filled as the spawn turns out, with a new live companion of that module if it starts; a live companion or "no entry" stays and nothing is spawned; the client waits last at that companion exactly if sending works, and is refused otherwise; no other slot or companion changes |
| `CompanionDaemon.Daemon.Serve` | zygiskd/src/zygiskd.rs:79-109 | on the object: in any feasible interleaving of handlers, restarts and companions the steps perform the modelled run, and afterwards every module has at most one open companion, all spawns are accounted for, "no entry" answers were respected, every client's replies are exclusive, and every client handed over is at a companion of the module it asked for |
| `CompanionProofs.AtMostOneCompanion` | zygiskd/src/zygiskd.rs:186-211 | in every interleaving a module has at most one companion whose daemon end is open; successful spawns are exactly those in the slot, found crashed or dropped by a restart, so at most one plus crash detections and restarts |
| `CompanionProofs.NoEntryIsNotRespawned` | zygiskd/src/zygiskd.rs:310-327 | in every interleaving, between a "no entry" answer and the next spawn for the module there is a restart that cleared it |
| `CompanionProofs.RestartClosesOldCompanions` | zygiskd/src/zygiskd.rs:90-96 | whatever handlers and companions do while a restart goes through the modules, waiting for each mutex, at its end the daemon end of every companion that existed when it began is closed |
| `CompanionProofs.ClientRepliesAreExclusive` | zygiskd/src/zygiskd.rs:328-342 | in every interleaving a client is written nothing, one 1, one 0 or two 0s; two exactly if a forked child returned and the request was refused; a 1 exactly if a companion accepted the descriptor; `ConnectCompanion` succeeds exactly then |
| `CompanionProofs.RightCompanion` | zygiskd/src/zygiskd.rs:301-330 | in every interleaving a client that was handed over or accepted is at a companion of the module whose index its request named |
| `CompanionProofs.ReceivedIsAccepted` | zygiskd/src/companion.rs:38-42 | in every reachable state a companion answers the client that has waited longest, which is thereby written its 1 and connects |
| `CompanionProofs.ReturnedChildAnswersTwice` | zygiskd/src/zygiskd.rs:212-224 | the concrete run in which a client is answered twice |
| `CompanionProofs.StepKeepsInv` | zygiskd/src/zygiskd.rs:300-343 | every step keeps mutual exclusion, the slot-companion correspondence, the reply record, single hand-over and the spawn account |
| `CompanionProofs.RunKeepsInv` | zygiskd/src/zygiskd.rs:79-109 | so does every interleaving |
| `Bitwise.MaskRoundsDown` | loader/src/ptracer/utils.cpp:315-318 | masking with a word whose low four bits are zero rounds down to a multiple of 16 |
| `RemoteStack.AlignStackIsMask` | loader/src/ptracer/utils.cpp:315-318 | on every target the aligned stack pointer is what the mask of `align_stack` computes, also when the subtraction wraps |
| `RemoteStack.StringsSurvive` | loader/src/ptracer/utils.cpp:320-450 | after every sequence of pushes and calls with conforming callees the strings are 16-aligned, pairwise disjoint, unharmed, not below the stack pointer, and nothing at or above the initial stack pointer changed |
| `RemoteStack.EntryIsAlignedAndBelow` | loader/src/ptracer/utils.cpp:336-412 | at every call of every such sequence the stack pointer plus the pushed return address is a multiple of 16, and the frame lies below all strings |
| `RemoteStack.EntersFunction` | loader/src/ptracer/utils.cpp:361-412 | on every target the process goes on at the function; on Arm with the Thumb bit set exactly for odd addresses |
| `RemoteStack.ReturnAddressPlaced` | loader/src/ptracer/utils.cpp:361-412 | the callee finds the return address where its convention puts it, on the stack or in the link register |
| `RemoteStack.ArgumentsArrive` | loader/src/ptracer/utils.cpp:347-403 | a call whose arguments all travel in registers, or on i386, delivers each argument where the convention puts it |
| `RemoteStack.SessionKeepsInv` | loader/src/ptracer/utils.cpp:320-450 | the layout invariant is kept by every sequence of pushes and calls |
| `RemoteStack.RegisterArgumentsPlaced` | loader/src/ptracer/utils.cpp:347-353 | the callee finds each register argument in its register |
| `RemoteStack.StackArgumentPlaced` | loader/src/ptracer/utils.cpp:354-371 | stack slot i holds argument i of the vector, the return address not overwriting it |
| `RemoteStack.StackArgumentsAreRightIff` | loader/src/ptracer/utils.cpp:354-403 | the callee finds the arguments its convention puts on the stack if and only if there are none or the tail of the vector repeats its head |
| `RemoteStack.SeventhArgumentIsTheFirst` | loader/src/ptracer/utils.cpp:354-359 | a concrete call on x86_64 whose callee finds the first argument in place of the seventh |
| `LittleEndian.DecodeEncode` | zygiskd/src/utils.rs:167-213 | every value that fits the width survives encoding and decoding |
| `LittleEndian.EncodeDecode` | zygiskd/src/utils.rs:167-213 | decoding stays within the width and encoding undoes it |
| `LittleEndian.DecodeSplit` | loader/src/ptracer/ptracer.cpp:39-43 | the low bytes of a word hold its remainder, so that the argument count is read right from four of them |
| `EntryHijack.Tracee.PushString` | loader/src/ptracer/utils.cpp:320-333 | the string and its terminator lie at the new, rounded-down stack pointer |
| `EntryHijack.Tracee.RemoteCall` | loader/src/ptracer/utils.cpp:336-450 | the process is set running with the built frame, whose parts the lemmas on `Setup` pin, and runs to its next stop; the result is the return register if it faulted at the return address, else 0 |
| `EntryHijack.Tracee.WalkStack` | loader/src/ptracer/ptracer.cpp:39-90 | on every initial stack both walks terminate, the second at the value slot of the first AT_ENTRY record, or with nothing if there is none |
| `EntryHijack.LayoutIsInitialStack` | loader/src/ptracer/ptracer.cpp:39-90 | a stack that holds, word by word, the argument count, arguments, environment and auxiliary records is one the walks can read |
| `EntryHijack.EntrySlotIsFirst` | loader/src/ptracer/ptracer.cpp:72-90 | on such a stack the slot found holds the value of the first AT_ENTRY record, and none is found exactly if there is none |
| `EntryHijack.Tracee.PushAndCall` | loader/src/ptracer/ptracer.cpp:141-152 | the process enters the function with the return address, the string's address and the other argument in their places and the text readable at that address; if the call returns something the stack layout is in order, and however it ends nothing above the start has changed |
| `EntryHijack.Tracee.CallInjector` | loader/src/ptracer/ptracer.cpp:136-221 | on success the process was entered exactly three times: `dlopen` with the library's path and RTLD_NOW, `dlsym` with the handle it returned and "entry", and what that returned with the handle and the temporary path, even if that crashes; otherwise a function is missing or the last of those calls found nothing; memory above the stack pointer is untouched |
| `EntryHijack.Tracee.RunAtStop` | loader/src/ptracer/ptracer.cpp:108-230 | from the stop on: success exactly at the replaced entry with library and symbol found, and then the registers are as saved with the program counter at the entry, however the injector entry ended; once stopped at the replaced entry the slot is restored, successful or not; at any other stop the process is left as it is |
| `EntryHijack.Tracee.InjectOnMain` | loader/src/ptracer/ptracer.cpp:19-239 | the process is first set running with nothing but the slot changed, which holds an address at the end of the address space of the entry's parity; success exactly if there is a non-zero AT_ENTRY record, the process stops at the replaced entry and library and symbol are found; then the three calls were made, the slot holds its original value and all registers are those of the stop except the program counter, which is the entry. In a process that does not write to the slot it is left with the replaced address exactly if a non-zero entry was found and the process did not stop at it; without an entry memory is unchanged |
| `FdSanitizer.ZygiskContext.ForkPre` | loader/src/injector/hook.cpp:468-488 | in the child the table is written outside its bounds if and only if all of 0 to 1023 are open; otherwise exactly the open descriptors below 1024 stay open and are recorded as allowed; the parent and a skipped run change nothing |
| `FdSanitizer.ZygiskContext.ExemptFd` | loader/src/injector/hook.cpp:695-702 | when an exemption is granted, and when it is recorded |
| `FdSanitizer.ZygiskContext.UpdateFdArray` | loader/src/injector/hook.cpp:495-512 | the new array ends with the exempted descriptors, which become allowed; nothing changes without exemptions or without the array |
| `FdSanitizer.ZygiskContext.CollectAllowed` | loader/src/injector/hook.cpp:494-530 | with exemptions and the array allocated the new array has the old entries first, one by one, and the exempted ones after them; otherwise it is the old one; the allowed set grows by both |
| `FdSanitizer.ZygiskContext.Sweep` | loader/src/injector/hook.cpp:534-543 | exactly the open, in-range, allowed descriptors survive |
| `FdSanitizer.ZygiskContext.SanitizeFds` | loader/src/injector/hook.cpp:490-544 | both halves together, for the child, the parent and a skipped run |
| `FdSanitizer.ZygiskContext.SpecializeInChild` | loader/src/injector/hook.cpp:742-757 | after the fork: module requests are appended to the exempted list, the ignore array is the old one followed by that list, and exactly the allowed descriptors of those then open survive |
| `FdSanitizer.ZygiskContext.RunModules` | loader/src/injector/hook.cpp:553-572 | during an app fork every exemption asked for is granted and recorded in order |
| `FdSanitizer.RequestsAreTheExemptions` | loader/src/injector/hook.cpp:695-702 | the recorded requests are exactly the descriptors of the exempting actions, in order |
| `FdSanitizer.ZygiskContext.NativeForkAndSpecializePre` | loader/src/injector/hook.cpp:742-757 | the exact open set and ignore array in the child for every fork; and if some descriptor below 1024 is free at the fork, a descriptor is open afterwards if and only if it was open before the sweep, is below 1024, and was open at the fork, is in the ignore list, or was exempted with the array allocated, and the new ignore list is the old one followed by the exempted ones |
| `FdSanitizer.ConservedIff` | loader/src/injector/hook.cpp:477-487 | that promise is kept, however the memory behind the table ends up, if and only if some descriptor below 1024 is free at the fork |
| `FdSanitizer.BeyondTableIff` | loader/src/injector/hook.cpp:477-487 | the directory gets a descriptor beyond the table if and only if all of 0 to 1023 are open |
| `FdSanitizer.FullTableLosesExemption` | loader/src/injector/hook.cpp:486-487 | a concrete process with 0 to 1023 open whose exemption of descriptor 3 is lost |
| `FdSanitizer.RejectedAreGone` | loader/src/injector/hook.cpp:534-543 | for every directory listing, closing the rejected entries leaves exactly the kept set |
| `FdSanitizer.ModulesTouchOnlyTheirs` | loader/src/injector/hook.cpp:553-572 | module code leaves open exactly what it opened and did not close after that, and what was open before and it did not close |
| `JniHooks.Jvm.HookJniNativeMethods` | loader/src/injector/hook.cpp:220-261 | the array holds afterwards the replaced pointers, null for variants that do not match, and exactly the matching methods are bound to their hooks; all null if the class is not found; nothing changes while hooking is disabled |
| `JniHooks.Jvm.PickFirst` | loader/src/injector/jni_hooks.hpp:315-321 | the variant saved for a family is the first that replaced something |
| `JniHooks.Jvm.DoHookZygote` | loader/src/injector/jni_hooks.hpp:310-339 | hooking the families in turn yields the specified table, originals and restore list; nothing is saved if the class is not found |
| `JniProofs.HookAndRestore` | loader/src/injector/hook.cpp:776-788 | on the object: hooking and the destructor's re-registration leave the method table as it was if every family has at most one matching variant, bound to something, or the class is not found; on a table without hooks only then |
| `JniProofs.UnhookRestoresIff` | loader/src/injector/hook.cpp:776-788 | for every method table, hooking and re-registration cancel out if every family has at most one matching variant, bound to something; on a table without hooks only then |
| `JniProofs.SecondVariantStaysHooked` | loader/src/injector/jni_hooks.hpp:315-321 | a concrete family of two bound variants whose second does not get its binding back |
| `JniProofs.UnhookedBinding` | loader/src/injector/hook.cpp:776-788 | method by method, which bindings come back and which do not |
| `JniProofs.OriginalsWereBound` | loader/src/injector/jni_hooks.hpp:315-321 | each saved original is the pointer bound before any hooking; none is saved only if no matching variant was bound |
| `JniProofs.SingleMatchIff` | loader/src/injector/jni_hooks.hpp:315-321 | a family has at most one matching variant, bound to something, if and only if every matching variant is the one picked |
| `WireCodec.Socket.XRead` | loader/src/common/socket_utils.cpp:9-25 | under every schedule of short reads and interruptions exactly the requested bytes, or all there are, are delivered in order; after a failure what was taken is still a prefix |
| `WireCodec.Socket.XWrite` | loader/src/common/socket_utils.cpp:27-43 | under every such schedule all bytes are written in order and once; after a failure a prefix of them |
| `WireCodec.Socket.ReadWord` | loader/src/common/socket_utils.cpp:78-99 | the value sent, or 0 if the stream ends early, under every schedule of reads |
| `WireCodec.Socket.ReadString` | loader/src/common/socket_utils.cpp:105-111 | under every schedule of reads the string is the bytes that arrive, then what the buffer held before, up to the first NUL |
| `WireCodec.SentString` | loader/src/common/socket_utils.cpp:105-111 | a string sent in full arrives up to its first NUL and exactly its bytes are used, whatever the buffer held |
| `WireCodec.Socket.RecvFd` | loader/src/common/socket_utils.cpp:45-76 | one `recvmsg`: the descriptor of the next message, or -1 if it carries none; if the call is interrupted the message stays queued and the answer is -1 or the descriptor left in the control buffer |
| `WireCodec.Socket.ReadModules` | loader/src/common/daemon.cpp:75-90 | whatever the stream holds, under every schedule of reads and every pattern of interrupted receptions the modules, and what is left, are exactly those of the reference reader on values |
| `WireCodec.SentList` | loader/src/common/daemon.cpp:75-90 | for every list the daemon wrote: modules before the first interrupted reception arrive as sent, names up to their first NUL; that module gets the descriptor before it or none; without interrupted receptions exactly what was written is used up |
| `WireCodec.DecodedIsSentIff` | loader/src/common/daemon.cpp:75-90 | the client decodes what was sent if and only if no `recvmsg` is interrupted |
| `WireCodec.SecondModuleGetsFirstLibrary` | loader/src/common/socket_utils.cpp:45-76 | the concrete run in which an interrupted reception gives the second module the library of the first |
| `WireCodec.WriteModules` | zygiskd/src/zygiskd.rs:293-299 | the daemon's loop writes the encoding of its list |
| `WireCodec.CStringIsWholeIff` | loader/src/common/socket_utils.cpp:105-111 | a string survives if and only if it contains no NUL |
| `WireCodec.NulNameArrivesEmpty` | loader/src/common/socket_utils.cpp:105-111 | a concrete one-byte name that arrives empty |
| `WireCodec.ReceivedIsSentIff` | loader/src/common/daemon.cpp:75-90 | the client ends up with the daemon's own list if and only if no name contains a NUL |
| `WireCodec.EncodeListAppend` | zygiskd/src/zygiskd.rs:293-299 | writing one more module appends its encoding |
| `WireCodec.LoadModules` | loader/src/injector/hook.cpp:553-562 | the loaded modules are those whose library loads, in order, each with the index at which it was received |
| `WireCodec.IdSelectsSameModule` | zygiskd/src/zygiskd.rs:300-302 | end to end, whatever modules fail to load, whatever the schedules and interrupted receptions: the id sent back selects the module at that place of the daemon's list; up to the first interrupted reception the client loaded that module's own library exactly if its reception was not interrupted |
| `ModuleProp.FillSections` | loader/src/ptracer/monitor.cpp:720-778 | for every file that fits, the first buffer holds the file up to the split and the second all the rest, both terminated |
| `ModuleProp.FillInside` | loader/src/ptracer/monitor.cpp:737-776 | the middle loop ends the scan or returns to the outer loop with everything read copied |
| `ModuleProp.FillPost` | loader/src/ptracer/monitor.cpp:749-758 | all that is left goes to the second buffer |
| `ModuleProp.SectionsAreTheFile` | loader/src/ptracer/monitor.cpp:720-778 | the two parts together are the file, and a non-empty second part implies that the first ends with the field name |
| `ModuleProp.SplitIsAfterDescription` | loader/src/ptracer/monitor.cpp:720-778 | if a line begins with "description=" the scanner splits no later than there, and right after it if it is the first occurrence |
| `ModuleProp.FirstFieldIsFoundIff` | loader/src/ptracer/monitor.cpp:738-777 | for every text and field name the scanner splits right after the first occurrence if and only if no match is under way where it begins, or nothing follows it |
| `ModuleProp.RepeatedFirstLetterIsMissed` | loader/src/ptracer/monitor.cpp:768-776 | a concrete line in which the field name is missed |

## Left out

- The error text of a daemon's exit (loader/src/ptracer/monitor.cpp:414-415), and a new process that gets the pid of a daemon that has exited.
- Malformed datagrams, the informational ones and the status text (loader/src/ptracer/monitor.cpp:158-186, 257-289 and 642-705): string input and output.
- Failing ptrace calls: seizing, interrupting, continuing and detaching are assumed to be carried out; a request in the wrong condition is counted as a fault and proved not to happen, except for setting options on and continuing a process whose first status was a death.
- A tracer process that is forked but cannot be executed kills the child it was to trace; what that process does is not modelled.
- Overflow of the start counter: it is an unbounded number; the program would need 2^31 starts within 30 seconds of each other.
- Name tables: a symbol carries its name already read from the string table; entry sizes, byte offsets and the memory map of the file are not modelled.
- GnuTable.Lookup: the hash passed in is that of the name, as every caller passes it; a Bloom word is the set of its one bits.
- GnuTable.WellFormed and SysvTable.WellFormed are assumed of the image: a malformed table makes the source read out of bounds.
- `getSymbAddress`, `find_module_base`, `find_func_addr` and `find_module_return_addr`: one-step searches and sums; their results are inputs of the injection.
- RemoteStack.StringsSurvive: a stack that would run below address 0 is excluded; callees keep the calling convention; calls that do not return are covered by `EntryHijack.CallWritesBelow`.
- EntryHijack.Tracee.InjectOnMain: remote reads, writes and register transfers succeed, and the stack has room for the strings and frames; the `dlerror` and `strlen` calls after a failed `dlopen` only produce a log line and are not modelled.
- EntryHijack.Tracee.RemoteCall: the failing `set_regs`, `get_regs` and wait paths, which return 0, are not modelled.
- FdSanitizer.ZygiskContext.ForkPre: a write outside the table can garble the exempted list arbitrarily; fields further behind it are taken as unharmed.
- Signal masks, module callbacks other than opening, closing and exempting, `nativeForkSystemServer` and `nativeSpecializeAppProcess`: they add no further descriptor logic.
- JniHooks.Jvm.DoHookZygote: the families are arbitrary lists of variants instead of the literal signature tables; lookups through `Method` objects are not modelled.
- CompanionDaemon.Daemon.HandleRequest: stated for one undisturbed request; interleavings are covered by `Serve`. Only the request kinds that touch companion slots are modelled.
- WireCodec.Socket.RecvFd: a descriptor travels with one integer 0, as the daemon's passfd library, which is not part of this model, sends it; the control buffer holds no valid header before the first reception.
- WireCodec.Socket.ReadModules: after an interrupted reception the stream is out of step and a garbage length can overrun the client's stack; what the modules after that one are is stated by the reference reader only.
- ModuleProp.FillSections: a file that does not fit the two buffers of 1024 bytes overruns them in the source and is excluded.
- Hiding and remapping of mappings, PLT hooks, unmounting, root implementations, SELinux, memfd creation, logging and the command line: kernel effects and plumbing without further checkable content.
