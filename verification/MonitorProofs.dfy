/** What holds in every run of the init monitor. */
module MonitorProofs {
  import opened Prelude
  import opened Ptrace
  import opened CrashLoop
  import opened MonitorModel

  /** An interrupt is outstanding, or a stop of the kind it causes is queued. */
  predicate StopPending(k: Kernel)
  {
    k.interrupt || (k.init.Stopped? && TrapStop(k.init.status))
  }

  /** Since the last order to stop, another stop of init absorbed the interrupt, and init has not trapped after that. */
  predicate InterruptLost(log: seq<Entry>)
  {
    log != [] &&
    match log[|log| - 1]
    case InterruptAbsorbed => true
    case StopOrdered => false
    case InitTrapped => false
    case _ => InterruptLost(log[..|log| - 1])
  }

  /**
   Before exit init is attached exactly while TRACING or STOPPING; no request on it was made in the wrong condition, so
   it is never seized twice, nor continued or detached when not stopped; while STOPPING a stop is pending
   exactly if the interrupt was not lost; and no job-control stop was passed on to init.
   */
  ghost predicate InitAsRecorded(s: State)
  {
    && (s.tracing != EXITING ==> (s.kernel.attached <==> s.tracing == TRACING || s.tracing == STOPPING))
    && s.kernel.initFaults == 0
    && (s.tracing == STOPPING ==> (StopPending(s.kernel) <==> !InterruptLost(s.log)))
    && (forall i :: 0 <= i < |s.kernel.delivered| ==> !StoppingSignal(s.kernel.delivered[i]))
  }

  ghost predicate InitInv(s: State)
  {
    && InitAsRecorded(s)
    && (s.kernel.init.Stopped? ==> s.kernel.attached && WIfStopped(s.kernel.init.status))
    && (s.running <==> s.tracing != EXITING)
  }

  /** The ledger is the reported children still attached, plus the stale pids. */
  ghost predicate LedgerInv(s: State)
  {
    && s.process == Reported(s.kernel) + s.stale
    && Reported(s.kernel) !! s.stale
    && (!s.stillborn ==> s.stale == {})
    && (s.kernel.resumeFaults == 0 <==> !s.stillborn)
    && s.kernel.detachFaults == 0
    && s.kernel.execTraced == Reported(s.kernel)
  }

  /**
   The ledger is exact if and only if it holds no pid whose first status was a death, and it is while there was none.
   No child was ever detached when not stopped, so each pid that left the ledger was detached once or was dead;
   options were set and children continued only in a stop exactly if no first status was a death. The reported
   children still attached are exactly those that will stop at an exec.
   */
  ghost predicate LedgerExact(s: State)
  {
    && (s.process == Reported(s.kernel) <==> s.stale == {})
    && (!s.stillborn ==> s.stale == {})
    && s.kernel.detachFaults == 0
    && (s.kernel.resumeFaults == 0 <==> !s.stillborn)
    && s.kernel.execTraced == Reported(s.kernel)
  }

  /**
   A tracer was launched only while TRACING, with its daemon recorded running and no crash loop; none between a stop
   and the next accepted START; and each ABI's daemon was forked at most once.
   */
  ghost predicate LaunchesGuarded(log: seq<Entry>)
  {
    && (forall j :: 0 <= j < |log| && log[j].TracerLaunched? ==>
          log[j].state == TRACING && log[j].daemonRunning && !CrashLooping(log[j].starts))
    && (forall i, j :: 0 <= i < j < |log| && log[i] == StopOrdered && log[j].TracerLaunched? ==>
          StartedAfter(log, i, j))
    && DaemonForks(log, Abi64) <= 1 && DaemonForks(log, Abi32) <= 1
  }

  ghost predicate RecordInv(s: State, abi: Abi)
  {
    var r := Record(s, abi);
    && r.counter == After(r.starts)
    && DaemonForks(s.log, abi) == (if r.daemonPid == -1 then 0 else 1)
    && (r.daemonPid == -1 ==> !r.daemonRunning)
  }

  function DaemonForks(log: seq<Entry>, abi: Abi): nat
  {
    if log == [] then 0
    else DaemonForks(log[..|log| - 1], abi) + if log[|log| - 1] == DaemonForked(abi) then 1 else 0
  }

  /** No stop was ordered, or a START was accepted after the last one. */
  predicate Active(log: seq<Entry>)
  {
    log == [] ||
    match log[|log| - 1]
    case StopOrdered => false
    case StartAccepted => true
    case _ => Active(log[..|log| - 1])
  }

  predicate Guarded(e: Entry)
  {
    e.TracerLaunched? ==> e.state == TRACING && e.daemonRunning && !CrashLooping(e.starts)
  }

  /** Every launch was guarded and happened in an active part of the history. */
  predicate LaunchesOk(log: seq<Entry>)
  {
    log == [] ||
    (var before := log[..|log| - 1];
     var e := log[|log| - 1];
     LaunchesOk(before) && Guarded(e) && (e.TracerLaunched? ==> Active(before)))
  }

  ghost predicate LaunchInv(s: State)
  {
    LaunchesOk(s.log) && (s.tracing == TRACING ==> Active(s.log))
  }

  ghost predicate BookInv(s: State)
  {
    RecordInv(s, Abi64) && RecordInv(s, Abi32) && LaunchInv(s)
  }

  /** The children left in a stop are those whose program could not be read. */
  ghost predicate HaltInv(s: State)
  {
    forall p :: p in s.unread <==> InStop(s.kernel, p)
  }

  ghost predicate DaemonPid(s: State, abi: Abi)
  {
    var r := Record(s, abi);
    if r.supported then r.daemonPid > 1 else r.daemonPid == -1
  }

  /** No traced child has a daemon's pid, only recorded daemons run, and a 64-bit daemon recorded running does run. */
  ghost predicate DaemonInv(s: State)
  {
    && DaemonPid(s, Abi64) && DaemonPid(s, Abi32)
    && (s.abi64.supported ==> s.abi64.daemonPid != s.abi32.daemonPid)
    && (forall p :: p in s.kernel.children ==> p > 1 && p != s.abi64.daemonPid && p != s.abi32.daemonPid)
    && (forall p :: p in s.kernel.daemons ==> p > 1 && (p == s.abi64.daemonPid || p == s.abi32.daemonPid))
    && (s.abi64.daemonRunning ==> s.abi64.daemonPid in s.kernel.daemons)
  }

  ghost predicate Inv(s: State)
  {
    InitInv(s) && LedgerInv(s) && BookInv(s) && HaltInv(s) && DaemonInv(s)
  }

  predicate SameFaults(s: State, t: State)
  {
    t.kernel.resumeFaults == s.kernel.resumeFaults && t.kernel.detachFaults == s.kernel.detachFaults
  }

  /** From `s` to `t` the ledger is untouched and the only child that changed is `pid`, as its status says. */
  ghost predicate OnlyChild(s: State, t: State, pid: Pid, status: Status)
  {
    && t.process == s.process && t.stale == s.stale && t.stillborn == s.stillborn && t.unread == s.unread
    && SameFaults(s, t)
    && t.kernel.children == (if WIfStopped(status) then s.kernel.children[pid := Halted] else s.kernel.children - {pid})
    && t.kernel.execTraced == (if WIfStopped(status) then s.kernel.execTraced else s.kernel.execTraced - {pid})
  }

  // ------------------------------------------------------------- log extension

  /** A stop may only be logged on leaving TRACING, a launch only while TRACING. */
  lemma LogExtends(s: State, t: State, e: Entry)
    requires LaunchInv(s)
    requires t.log == s.log + [e]
    requires Guarded(e) && (e.TracerLaunched? ==> s.tracing == TRACING)
    requires t.tracing == TRACING ==> e == StartAccepted || (s.tracing == TRACING && e != StopOrdered)
    ensures LaunchInv(t)
  {
    assert t.log[..|t.log| - 1] == s.log;
  }

  lemma LostExtends(log: seq<Entry>, e: Entry)
    ensures InterruptLost(log + [e]) <==>
            e == InterruptAbsorbed || (e != StopOrdered && e != InitTrapped && InterruptLost(log))
  {
    assert (log + [e])[..|log|] == log;
  }

  lemma ForksExtend(log: seq<Entry>, e: Entry, abi: Abi)
    ensures DaemonForks(log + [e], abi) == DaemonForks(log, abi) + if e == DaemonForked(abi) then 1 else 0
  {
    assert (log + [e])[..|log|] == log;
  }

  ghost predicate StartedAfter(log: seq<Entry>, i: int, end: int)
  {
    exists k :: i < k < end && 0 <= k < |log| && log[k] == StartAccepted
  }

  lemma {:induction false} ActiveMeansStarted(log: seq<Entry>, i: nat)
    requires Active(log) && i < |log| && log[i] == StopOrdered
    ensures StartedAfter(log, i, |log|)
  {
    var n := |log| - 1;
    if log[n] == StartAccepted {
    } else {
      ActiveMeansStarted(log[..n], i);
      var k :| i < k < n && 0 <= k < |log[..n]| && log[..n][k] == StartAccepted;
      assert log[k] == StartAccepted;
    }
  }

  lemma {:induction false} LaunchesOkMeans(log: seq<Entry>, j: nat)
    requires LaunchesOk(log) && j < |log| && log[j].TracerLaunched?
    ensures Guarded(log[j])
    ensures forall i :: 0 <= i < j && log[i] == StopOrdered ==> StartedAfter(log, i, j)
  {
    var n := |log| - 1;
    var before := log[..n];
    if j < n {
      LaunchesOkMeans(before, j);
    }
    forall i | 0 <= i < j && log[i] == StopOrdered
      ensures StartedAfter(log, i, j)
    {
      if j == n {
        ActiveMeansStarted(before, i);
      } else {
        assert before[i] == StopOrdered;
      }
      assert StartedAfter(before, i, j);
      var k :| i < k < j && 0 <= k < |before| && before[k] == StartAccepted;
      assert log[k] == StartAccepted;
    }
  }

  lemma LaunchKept(s: State, t: State)
    requires LaunchInv(s)
    requires t.log == s.log && (t.tracing == TRACING ==> s.tracing == TRACING)
    ensures LaunchInv(t)
  {
  }

  lemma LedgerKept(s: State, t: State)
    requires LedgerInv(s)
    requires t.process == s.process && t.stale == s.stale && t.stillborn == s.stillborn
    requires t.kernel.children == s.kernel.children && t.kernel.execTraced == s.kernel.execTraced && SameFaults(s, t)
    ensures LedgerInv(t)
  {
    assert Reported(t.kernel) == Reported(s.kernel);
  }

  lemma RecordsKept(s: State, t: State, e: Entry)
    requires RecordInv(s, Abi64) && RecordInv(s, Abi32)
    requires t.abi64 == s.abi64 && t.abi32 == s.abi32
    requires t.log == s.log || (t.log == s.log + [e] && !e.DaemonForked?)
    ensures RecordInv(t, Abi64) && RecordInv(t, Abi32)
  {
    ForksExtend(s.log, e, Abi64);
    ForksExtend(s.log, e, Abi32);
  }

  /** Fewer children and cleared flags do not matter. */
  lemma DaemonsKept(s: State, t: State)
    requires DaemonInv(s)
    requires t.kernel.children.Keys <= s.kernel.children.Keys && t.kernel.daemons == s.kernel.daemons
    requires t.abi64.supported == s.abi64.supported && t.abi64.daemonPid == s.abi64.daemonPid
    requires t.abi32.supported == s.abi32.supported && t.abi32.daemonPid == s.abi32.daemonPid
    requires t.abi64.daemonRunning ==> s.abi64.daemonRunning
    ensures DaemonInv(t)
  {
    forall p | p in t.kernel.children
      ensures p > 1 && p != t.abi64.daemonPid && p != t.abi32.daemonPid
    {
      assert p in s.kernel.children;
    }
  }

  // --------------------------------------------------------------------- steps

  lemma InitialInv()
    ensures Inv(Initial())
  {
    var s := Initial();
    assert After([]) == NEW_COUNTER;
    assert Reported(s.kernel) == {};
  }

  lemma DatagramKeepsInit(s: State, cmd: Command)
    requires InitInv(s)
    ensures InitInv(OnDatagram(s, cmd))
  {
    LostExtends(s.log, StopOrdered);
  }

  /** A datagram may set the flags of a record. */
  lemma FlagsKeepBook(s: State, abi: Abi, r: AbiRecord)
    requires BookInv(s)
    requires r.counter == Record(s, abi).counter && r.starts == Record(s, abi).starts
    requires r.daemonPid == Record(s, abi).daemonPid && (r.daemonRunning ==> Record(s, abi).daemonRunning)
    ensures BookInv(WithRecord(s, abi, r))
  {
  }

  lemma DatagramKeepsBook(s: State, cmd: Command)
    requires BookInv(s)
    ensures BookInv(OnDatagram(s, cmd))
  {
    var t := OnDatagram(s, cmd);
    match cmd
    case START =>
      if s.tracing == STOPPING || s.tracing == STOPPED {
        LogExtends(s, t, StartAccepted);
        RecordsKept(s, t, StartAccepted);
      }
    case STOP =>
      if s.tracing == TRACING {
        LogExtends(s, t, StopOrdered);
        RecordsKept(s, t, StopOrdered);
      }
    case EXIT =>
      LaunchKept(s, t);
      RecordsKept(s, t, StopOrdered);
    case ZYGOTE_INJECTED(abi) => FlagsKeepBook(s, abi, Record(s, abi).(injected := true));
    case DAEMON_SET_ERROR_INFO(abi) => FlagsKeepBook(s, abi, Record(s, abi).(daemonRunning := false));
    case OTHER_COMMAND =>
  }

  /** A datagram touches neither the children nor the ledger nor the daemons' pids. */
  lemma DatagramFrame(s: State, cmd: Command)
    ensures
      var t := OnDatagram(s, cmd);
      && t.process == s.process && t.stale == s.stale && t.stillborn == s.stillborn && t.unread == s.unread
      && t.kernel.children == s.kernel.children && t.kernel.execTraced == s.kernel.execTraced
      && t.kernel.daemons == s.kernel.daemons && SameFaults(s, t)
      && t.abi64.supported == s.abi64.supported && t.abi64.daemonPid == s.abi64.daemonPid
      && t.abi32.supported == s.abi32.supported && t.abi32.daemonPid == s.abi32.daemonPid
      && (t.abi64.daemonRunning ==> s.abi64.daemonRunning)
  {
  }

  lemma DatagramKeepsInv(s: State, cmd: Command)
    requires Inv(s)
    ensures Inv(OnDatagram(s, cmd))
  {
    DatagramKeepsInit(s, cmd);
    DatagramFrame(s, cmd);
    LedgerKept(s, OnDatagram(s, cmd));
    DatagramKeepsBook(s, cmd);
    DaemonsKept(s, OnDatagram(s, cmd));
  }

  lemma InitStopKeepsInit(s: State, status: Status, takesInterrupt: bool)
    requires InitInv(s) && Enabled(s, InitStops(status, takesInterrupt))
    ensures InitInv(OnInitStops(s, status, takesInterrupt))
  {
    LostExtends(s.log, InitTrapped);
    LostExtends(s.log, InterruptAbsorbed);
  }

  lemma InitStopKeepsBook(s: State, status: Status, takesInterrupt: bool)
    requires BookInv(s)
    ensures BookInv(OnInitStops(s, status, takesInterrupt))
  {
    var t := OnInitStops(s, status, takesInterrupt);
    if t.log != s.log {
      var e := if TrapStop(status) then InitTrapped else InterruptAbsorbed;
      LogExtends(s, t, e);
      RecordsKept(s, t, e);
    }
  }

  lemma InitStopsKeepsInv(s: State, status: Status, takesInterrupt: bool)
    requires Inv(s) && Enabled(s, InitStops(status, takesInterrupt))
    ensures Inv(OnInitStops(s, status, takesInterrupt))
  {
    var t := OnInitStops(s, status, takesInterrupt);
    InitStopKeepsInit(s, status, takesInterrupt);
    InitStopKeepsBook(s, status, takesInterrupt);
    LedgerKept(s, t);
    DaemonsKept(s, t);
  }

  lemma InitForksKeepsInv(s: State, child: Pid, takesInterrupt: bool)
    requires Inv(s) && Enabled(s, InitForks(child, takesInterrupt))
    ensures Inv(Step(s, InitForks(child, takesInterrupt)))
  {
    var fork := StopStatus(SIGTRAP, EVENT_FORK);
    var stopped := OnInitStops(s, fork, takesInterrupt);
    var t := Step(s, InitForks(child, takesInterrupt));
    InitStopsKeepsInv(s, fork, takesInterrupt);
    InitKept(stopped, t);
    BookKept(stopped, t);
    assert Reported(t.kernel) == Reported(stopped.kernel);
    assert t.kernel.children - {child} == stopped.kernel.children - {child};
    HaltKept(stopped, t, child);
  }

  lemma InitReportedKeepsInv(s: State, status: Status)
    requires Inv(s) && Enabled(s, InitReported(status))
    ensures Inv(OnInitReported(s, status))
  {
    var t := OnInitReported(s, status);
    LaunchKept(s, t);
    RecordsKept(s, t, StopOrdered);
    LedgerKept(s, t);
  }

  lemma OrderStopKeeps(s: State)
    requires InitInv(s) && BookInv(s) && s.tracing == TRACING
    ensures InitInv(OrderStop(s)) && BookInv(OrderStop(s))
  {
    LostExtends(s.log, StopOrdered);
    LogExtends(s, OrderStop(s), StopOrdered);
    RecordsKept(s, OrderStop(s), StopOrdered);
  }

  lemma CountStartKeeps(s: State, abi: Abi, now: int)
    requires RecordInv(s, Abi64) && RecordInv(s, Abi32)
    ensures RecordInv(CountStart(s, abi, now), Abi64) && RecordInv(CountStart(s, abi, now), Abi32)
  {
    var r := Record(s, abi);
    assert (r.starts + [now])[..|r.starts|] == r.starts;
    assert After(r.starts + [now]) == Tick(After(r.starts), now);
  }

  lemma EnsureDaemonKeeps(s: State, abi: Abi, forked: Pid)
    requires BookInv(s) && s.tracing == TRACING
    ensures
      var t := EnsureDaemon(s, abi, forked);
      && BookInv(t)
      && (DaemonEnsured(s, abi, forked) <==> Record(t, abi).daemonRunning)
      && Record(t, abi).starts == Record(s, abi).starts
  {
    var t := EnsureDaemon(s, abi, forked);
    ForksExtend(s.log, DaemonForked(abi), Abi64);
    ForksExtend(s.log, DaemonForked(abi), Abi32);
    if t.log != s.log {
      LogExtends(s, t, DaemonForked(abi));
    }
  }

  /** Only the records and the history change. */
  lemma EnsureDaemonKeepsInit(s: State, abi: Abi, forked: Pid)
    requires InitInv(s) && s.tracing == TRACING
    ensures
      var t := EnsureDaemon(s, abi, forked);
      && InitInv(t) && t.tracing == TRACING && t.kernel == s.kernel.(daemons := t.kernel.daemons)
      && t.process == s.process && t.stale == s.stale && t.stillborn == s.stillborn && t.unread == s.unread
  {
  }

  lemma HandOverKeeps(s: State, pid: Pid, abi: Abi, o: Outside)
    requires InitInv(s) && BookInv(s)
    requires InStop(s.kernel, pid) && s.tracing == TRACING
    requires Record(s, abi).daemonRunning && !CrashLooping(Record(s, abi).starts)
    ensures var (t, status) := HandOver(s, pid, abi, o); InitInv(t) && BookInv(t) && OnlyChild(s, t, pid, status)
  {
    var (t, status) := HandOver(s, pid, abi, o);
    var r := Record(s, abi);
    var e :=
      if o.tracerForked then TracerLaunched(abi, pid, s.tracing, r.daemonRunning, r.starts) else ChildKilled(pid);
    if t.log != s.log {
      LogExtends(s, t, e);
    }
    RecordsKept(s, t, e);
    assert s.kernel.children[pid := Live] - {pid} == s.kernel.children - {pid};
    assert s.kernel.children[pid := Live][pid := Halted] == s.kernel.children[pid := Halted];
    assert s.kernel.children[pid := Halted] - {pid} == s.kernel.children - {pid};
  }

  lemma InjectCountedKeeps(s: State, pid: Pid, status: Status, abi: Abi, o: Outside)
    requires InitInv(s) && BookInv(s) && s.tracing == TRACING
    requires InStop(s.kernel, pid) && WIfStopped(status)
    ensures
      var (t, status') := InjectCounted(s, pid, status, abi, o);
      InitInv(t) && BookInv(t) && OnlyChild(s, t, pid, status')
  {
    assert s.kernel.children == s.kernel.children[pid := Halted];
    if TooManyStarts(s, abi) {
      OrderStopKeeps(s);
    } else {
      EnsureDaemonKeeps(s, abi, o.daemonFork);
      EnsureDaemonKeepsInit(s, abi, o.daemonFork);
      if !DaemonEnsured(s, abi, o.daemonFork) {
        OrderStopKeeps(EnsureDaemon(s, abi, o.daemonFork));
      } else {
        StopTestIsCrashLoop(Record(s, abi).starts);
        HandOverKeeps(EnsureDaemon(s, abi, o.daemonFork), pid, abi, o);
      }
    }
  }

  /** The injection block touches the child only; init, the records and the launch history stay in order. */
  lemma TryInjectKeeps(s: State, pid: Pid, status: Status, o: Outside)
    requires InitInv(s) && BookInv(s)
    requires InStop(s.kernel, pid) && WIfStopped(status)
    ensures
      var (t, status') := TryInject(s, pid, status, o);
      InitInv(t) && BookInv(t) && OnlyChild(s, t, pid, status')
  {
    if s.tracing == TRACING && o.program.AppProcess? {
      var counted := CountStart(s, o.program.abi, o.now);
      CountStartKeeps(s, o.program.abi, o.now);
      LaunchKept(s, counted);
      InjectCountedKeeps(counted, pid, status, o.program.abi, o);
    } else {
      assert s.kernel.children == s.kernel.children[pid := Halted];
    }
  }

  // --------------------------------------------------------- daemons and the injection block

  lemma EnsureDaemonKeepsDaemons(s: State, abi: Abi, forked: Pid)
    requires DaemonInv(s) && (forked < 0 || Unused(s, forked))
    ensures DaemonInv(EnsureDaemon(s, abi, forked))
  {
  }

  lemma HandOverKeepsDaemons(s: State, pid: Pid, abi: Abi, o: Outside)
    requires DaemonInv(s) && InStop(s.kernel, pid)
    ensures DaemonInv(HandOver(s, pid, abi, o).0)
  {
    var t := HandOver(s, pid, abi, o).0;
    assert t.kernel.daemons == s.kernel.daemons - {pid} == s.kernel.daemons;
    DaemonsKept(s, t);
  }

  lemma InjectCountedKeepsDaemons(s: State, pid: Pid, status: Status, abi: Abi, o: Outside)
    requires DaemonInv(s) && InStop(s.kernel, pid) && (o.daemonFork < 0 || Unused(s, o.daemonFork))
    ensures DaemonInv(InjectCounted(s, pid, status, abi, o).0)
  {
    var ensured := EnsureDaemon(s, abi, o.daemonFork);
    if TooManyStarts(s, abi) {
      DaemonsKept(s, OrderStop(s));
    } else {
      EnsureDaemonKeepsDaemons(s, abi, o.daemonFork);
      if !DaemonEnsured(s, abi, o.daemonFork) {
        DaemonsKept(ensured, OrderStop(ensured));
      } else {
        HandOverKeepsDaemons(ensured, pid, abi, o);
      }
    }
  }

  lemma TryInjectKeepsDaemons(s: State, pid: Pid, status: Status, o: Outside)
    requires DaemonInv(s) && InStop(s.kernel, pid) && (o.daemonFork < 0 || Unused(s, o.daemonFork))
    ensures DaemonInv(TryInject(s, pid, status, o).0)
  {
    if s.tracing == TRACING && o.program.AppProcess? {
      DaemonsKept(s, CountStart(s, o.program.abi, o.now));
      InjectCountedKeepsDaemons(CountStart(s, o.program.abi, o.now), pid, status, o.program.abi, o);
    }
  }

  // ------------------------------------------------------------------ child statuses

  lemma ForgetKeepsLedger(s0: State, s: State, pid: Pid, status: Status)
    requires LedgerInv(s0) && pid in s0.process
    requires s.process == s0.process && s.stale == s0.stale && s.stillborn == s0.stillborn
    requires SameFaults(s0, s)
    requires s.kernel.children ==
             if WIfStopped(status) then s0.kernel.children[pid := Halted] else s0.kernel.children - {pid}
    requires s.kernel.execTraced == if WIfStopped(status) then s0.kernel.execTraced else s0.kernel.execTraced - {pid}
    ensures LedgerInv(Forget(s, pid, status))
    ensures Forget(s, pid, status).kernel.children == s0.kernel.children - {pid}
  {
    var t := Forget(s, pid, status);
    assert t.kernel.children == s0.kernel.children - {pid};
    assert Reported(t.kernel) == Reported(s0.kernel) - {pid};
  }

  /** The only child that changed is `pid`. */
  lemma HaltKept(s: State, t: State, pid: Pid)
    requires HaltInv(s)
    requires t.kernel.children - {pid} == s.kernel.children - {pid} && t.unread - {pid} == s.unread - {pid}
    requires pid in t.unread <==> InStop(t.kernel, pid)
    ensures HaltInv(t)
  {
    forall p | p != pid
      ensures p in t.unread <==> InStop(t.kernel, p)
    {
      assert p in t.unread <==> p in t.unread - {pid};
      assert p in s.unread <==> p in s.unread - {pid};
      assert p in t.kernel.children <==> p in t.kernel.children - {pid};
      assert p in s.kernel.children <==> p in s.kernel.children - {pid};
      if p in t.kernel.children {
        assert (t.kernel.children - {pid})[p] == (s.kernel.children - {pid})[p];
      }
    }
  }

  lemma NewChildKeepsLedger(s: State, pid: Pid, status: Status)
    requires LedgerInv(s) && pid !in s.process && (WIfStopped(status) ==> pid in s.kernel.children)
    ensures
      var t := s.(process := s.process + {pid},
                  kernel := Cont(SetOptions(Report(s.kernel, pid, status), pid), pid),
                  stale := if WIfStopped(status) then s.stale else s.stale + {pid},
                  stillborn := s.stillborn || !WIfStopped(status));
      LedgerInv(t) && t.kernel.children - {pid} == s.kernel.children - {pid} && !InStop(t.kernel, pid)
  {
    var k := Cont(SetOptions(Report(s.kernel, pid, status), pid), pid);
    if WIfStopped(status) {
      assert Reported(k) == Reported(s.kernel) + {pid};
    } else {
      assert Reported(k) == Reported(s.kernel);
    }
    assert k.children - {pid} == s.kernel.children - {pid};
  }

  lemma BookKept(s: State, t: State)
    requires BookInv(s)
    requires t.abi64 == s.abi64 && t.abi32 == s.abi32 && t.log == s.log && t.tracing == s.tracing
    ensures BookInv(t)
  {
  }

  lemma InitKept(s: State, t: State)
    requires InitInv(s)
    requires t.tracing == s.tracing && t.running == s.running && t.log == s.log
    requires t.kernel.attached == s.kernel.attached && t.kernel.init == s.kernel.init
    requires t.kernel.interrupt == s.kernel.interrupt && t.kernel.initFaults == s.kernel.initFaults
    requires t.kernel.delivered == s.kernel.delivered
    ensures InitInv(t)
  {
  }

  /** The 64-bit daemon's exit is noticed. */
  lemma DaemonExitKeepsInv(s: State, pid: Pid, status: Status, o: Outside)
    requires Inv(s) && Enabled(s, ChildReported(pid, status, o)) && DaemonTaken(s, pid).Some?
    ensures DaemonTaken(s, pid) == Some(Abi64) && Inv(OnChildReported(s, pid, status, o))
  {
    var t := OnChildReported(s, pid, status, o);
    assert pid !in s.kernel.children;
    assert t.kernel.children == s.kernel.children && t.unread == s.unread;
    InitKept(s, t);
    LedgerKept(s, t);
    FlagsKeepBook(s, Abi64, s.abi64.(daemonRunning := false));
    BookKept(WithRecord(s, Abi64, s.abi64.(daemonRunning := false)), t);
  }

  /** A first status, of a child or of the 32-bit daemon, whose exit the checks do not recognise. */
  lemma FirstReportKeepsInv(s: State, pid: Pid, status: Status, o: Outside)
    requires Inv(s) && Enabled(s, ChildReported(pid, status, o)) && DaemonTaken(s, pid) == None && pid !in s.process
    ensures Inv(OnChildReported(s, pid, status, o))
  {
    var t := OnChildReported(s, pid, status, o);
    InitKept(s, t);
    BookKept(s, t);
    NewChildKeepsLedger(s, pid, status);
    LedgerSame(s.(process := t.process, kernel := t.kernel, stale := t.stale, stillborn := t.stillborn), t);
    HaltKept(s, t, pid);
    SeenKeepsDaemons(s, pid, status, o);
    DaemonsKept(Seen(s, pid, status), t);
  }

  lemma LedgerSame(s: State, t: State)
    requires LedgerInv(s)
    requires t.process == s.process && t.kernel == s.kernel && t.stale == s.stale && t.stillborn == s.stillborn
    ensures LedgerInv(t)
  {
  }

  function Seen(s: State, pid: Pid, status: Status): State
  {
    s.(kernel := Report(s.kernel, pid, status), unread := s.unread - {pid})
  }

  lemma SeenKeepsDaemons(s: State, pid: Pid, status: Status, o: Outside)
    requires DaemonInv(s) && Enabled(s, ChildReported(pid, status, o)) && DaemonTaken(s, pid) == None
    ensures DaemonInv(Seen(s, pid, status))
  {
    var t := Seen(s, pid, status);
    if pid in s.kernel.children {
      assert t.kernel.daemons == s.kernel.daemons;
      DaemonsKept(s, t);
    } else {
      assert t.kernel.children == s.kernel.children;
    }
  }

  /** A child whose program cannot be read is left in its stop and in the ledger. */
  lemma UnreadKeepsInv(s: State, pid: Pid, status: Status, o: Outside)
    requires Inv(s) && Enabled(s, ChildReported(pid, status, o)) && DaemonTaken(s, pid) == None && pid in s.process
    requires StoppedWith(status, SIGTRAP, EVENT_EXEC) && o.program.Unreadable?
    ensures Inv(OnChildReported(s, pid, status, o))
  {
    var t := OnChildReported(s, pid, status, o);
    InitKept(s, t);
    BookKept(s, t);
    assert Reported(t.kernel) == Reported(s.kernel) + {pid};
    assert t.kernel.children - {pid} == s.kernel.children - {pid};
    HaltKept(s, t, pid);
    SeenKeepsDaemons(s, pid, status, o);
    DaemonsKept(Seen(s, pid, status), t);
  }

  /** Any other later status makes the monitor forget the pid. */
  lemma OtherReportKeepsInv(s: State, pid: Pid, status: Status, o: Outside)
    requires Inv(s) && Enabled(s, ChildReported(pid, status, o)) && DaemonTaken(s, pid) == None && pid in s.process
    requires !StoppedWith(status, SIGTRAP, EVENT_EXEC)
    ensures Inv(OnChildReported(s, pid, status, o))
  {
    var seen := Seen(s, pid, status);
    var t := OnChildReported(s, pid, status, o);
    InitKept(s, t);
    BookKept(s, t);
    ForgetKeepsLedger(s, seen, pid, status);
    HaltKept(s, t, pid);
    SeenKeepsDaemons(s, pid, status, o);
    DaemonsKept(seen, t);
  }

  /** The injection block between the report of a stop and the removal of the pid. */
  lemma InjectThenForget(s: State, s': State, pid: Pid, status': Status)
    requires LedgerInv(s) && HaltInv(s) && pid in s.process
    requires InitInv(s') && BookInv(s') && DaemonInv(s')
    requires OnlyChild(
               s.(kernel := s.kernel.(children := s.kernel.children[pid := Halted]), unread := s.unread - {pid}),
               s', pid, status')
    ensures Inv(Forget(s', pid, status'))
  {
    var t := Forget(s', pid, status');
    assert s.kernel.children[pid := Halted] - {pid} == s.kernel.children - {pid};
    assert s.kernel.children[pid := Halted][pid := Halted] == s.kernel.children[pid := Halted];
    ForgetKeepsLedger(s, s', pid, status');
    BookKept(s', t);
    InitKept(s', t);
    HaltKept(s, t, pid);
    DaemonsKept(s', t);
  }

  lemma ExecReportedKeepsInv(s: State, pid: Pid, status: Status, o: Outside)
    requires Inv(s) && Enabled(s, ChildReported(pid, status, o)) && DaemonTaken(s, pid) == None && pid in s.process
    requires StoppedWith(status, SIGTRAP, EVENT_EXEC) && !o.program.Unreadable?
    ensures Inv(OnChildReported(s, pid, status, o))
  {
    var seen := Seen(s, pid, status);
    var (s', status') := TryInject(seen, pid, status, o);
    BookKept(s, seen);
    InitKept(s, seen);
    TryInjectKeeps(seen, pid, status, o);
    SeenKeepsDaemons(s, pid, status, o);
    TryInjectKeepsDaemons(seen, pid, status, o);
    InjectThenForget(s, s', pid, status');
  }

  lemma ChildReportedKeepsInv(s: State, pid: Pid, status: Status, o: Outside)
    requires Inv(s) && Enabled(s, ChildReported(pid, status, o))
    ensures Inv(OnChildReported(s, pid, status, o))
  {
    if DaemonTaken(s, pid).Some? {
      DaemonExitKeepsInv(s, pid, status, o);
    } else if pid !in s.process {
      FirstReportKeepsInv(s, pid, status, o);
    } else if !StoppedWith(status, SIGTRAP, EVENT_EXEC) {
      OtherReportKeepsInv(s, pid, status, o);
    } else if o.program.Unreadable? {
      UnreadKeepsInv(s, pid, status, o);
    } else {
      ExecReportedKeepsInv(s, pid, status, o);
    }
  }

  /** Nothing to wait for: init is then not attached, so the state is STOPPED and the loop ends. */
  lemma NothingToWaitForChangesNothing(s: State, leftover: Status)
    requires Inv(s) && Enabled(s, NothingToWaitFor(leftover))
    ensures OnNothingToWaitFor(s, leftover) == s
  {
  }

  lemma StepKeepsInv(s: State, e: Event)
    requires Inv(s) && Enabled(s, e)
    ensures Inv(Step(s, e))
  {
    match e
    case Datagram(cmd) => DatagramKeepsInv(s, cmd);
    case InitReported(status) => InitReportedKeepsInv(s, status);
    case ChildReported(pid, status, o) => ChildReportedKeepsInv(s, pid, status, o);
    case NothingToWaitFor(leftover) => NothingToWaitForChangesNothing(s, leftover);
    case InitStops(status, takesInterrupt) => InitStopsKeepsInv(s, status, takesInterrupt);
    case InitForks(child, takesInterrupt) => InitForksKeepsInv(s, child, takesInterrupt);
  }

  // ---------------------------------------------------------------------- runs

  lemma {:induction false} RunKeepsInv(s: State, events: seq<Event>)
    requires Inv(s) && Feasible(s, events)
    ensures Inv(Run(s, events))
    decreases |events|
  {
    if events == [] {
      assert Run(s, events) == s;
    } else {
      StepKeepsInv(s, events[0]);
      RunKeepsInv(Step(s, events[0]), events[1..]);
    }
  }

  /** What the invariant says about the launches, in terms of positions in the history. */
  lemma InvGuardsLaunches(s: State)
    requires Inv(s)
    ensures LaunchesGuarded(s.log)
  {
    forall j | 0 <= j < |s.log| && s.log[j].TracerLaunched?
      ensures Guarded(s.log[j]) && forall i :: 0 <= i < j && s.log[i] == StopOrdered ==> StartedAfter(s.log, i, j)
    {
      LaunchesOkMeans(s.log, j);
    }
  }

  /** In every run, whatever the stops of init, tracing of init is as recorded. */
  lemma InitIsTracedAsRecorded(events: seq<Event>)
    requires Feasible(Initial(), events)
    ensures InitAsRecorded(Run(Initial(), events))
  {
    InitialInv();
    RunKeepsInv(Initial(), events);
  }

  /** In every run the ledger is as exact as the first statuses allow. */
  lemma LedgerIsExact(events: seq<Event>)
    requires Feasible(Initial(), events)
    ensures LedgerExact(Run(Initial(), events))
  {
    InitialInv();
    RunKeepsInv(Initial(), events);
  }

  /** In every run the launches of tracers and daemons are guarded. */
  lemma LaunchesAreGuarded(events: seq<Event>)
    requires Feasible(Initial(), events)
    ensures LaunchesGuarded(Run(Initial(), events).log)
  {
    InitialInv();
    RunKeepsInv(Initial(), events);
    InvGuardsLaunches(Run(Initial(), events));
  }

  /**
   In every run the children left in a stop are exactly those whose program could not be read at their last stop, and a
   64-bit daemon recorded running does run.
   */
  ghost predicate ProcessesAsRecorded(s: State)
  {
    && (forall p :: InStop(s.kernel, p) <==> p in s.unread)
    && (s.abi64.daemonRunning ==> s.abi64.daemonPid in s.kernel.daemons)
  }

  lemma HaltedIffUnread(events: seq<Event>)
    requires Feasible(Initial(), events)
    ensures ProcessesAsRecorded(Run(Initial(), events))
  {
    InitialInv();
    RunKeepsInv(Initial(), events);
  }

  /** Nothing but its death ends such a stop. */
  lemma HaltedStaysUntilDeath(s: State, e: Event, p: Pid)
    requires Inv(s) && InStop(s.kernel, p) && Enabled(s, e) && !(e.ChildReported? && e.pid == p)
    ensures InStop(Step(s, e).kernel, p)
  {
    StepKeepsInv(s, e);
    UnreadFrame(s, e);
    assert p in s.unread && p in Step(s, e).unread;
  }

  lemma UnreadFrame(s: State, e: Event)
    requires Enabled(s, e)
    ensures Step(s, e).unread >= if e.ChildReported? then s.unread - {e.pid} else s.unread
  {
    if e.ChildReported? {
      InjectLeavesUnread(Seen(s, e.pid, e.status), e.pid, e.status, e.outside);
    }
  }

  lemma InjectLeavesUnread(s: State, pid: Pid, status: Status, o: Outside)
    ensures TryInject(s, pid, status, o).0.unread == s.unread
  {
  }

  /** The exit of the 32-bit daemon changes its record in nothing: it is still recorded running if it was. */
  lemma Daemon32ExitIsNotNoticed(s: State, status: Status, o: Outside)
    requires Inv(s) && s.abi32.daemonPid in s.kernel.daemons
    requires Enabled(s, ChildReported(s.abi32.daemonPid, status, o))
    ensures
      var t := Step(s, ChildReported(s.abi32.daemonPid, status, o));
      && t.abi32 == s.abi32 && s.abi32.daemonPid !in t.kernel.daemons
      && (t.process == if s.abi32.daemonPid in s.process then s.process - {s.abi32.daemonPid}
                       else s.process + {s.abi32.daemonPid})
  {
  }

  /** Once EXITING, always EXITING, and the event loop never runs again. */
  lemma {:induction false} ExitingIsAbsorbing(s: State, events: seq<Event>)
    requires s.tracing == EXITING && !s.running && Feasible(s, events)
    ensures Run(s, events).tracing == EXITING && !Run(s, events).running
    decreases |events|
  {
    if events == [] {
      assert Run(s, events) == s;
    } else {
      ExitingIsAbsorbing(Step(s, events[0]), events[1..]);
    }
  }

  lemma RunFrom(s: State, e: Event, rest: seq<Event>)
    requires Enabled(s, e) && Feasible(Step(s, e), rest)
    ensures Feasible(s, [e] + rest) && Run(s, [e] + rest) == Run(Step(s, e), rest)
  {
    assert ([e] + rest)[1..] == rest;
  }

  /** A child that is killed before its attach stop was reported leaves its pid in the ledger. */
  lemma StillbornStaysInLedger(o: Outside)
    requires o.daemonFork < 0
    ensures
      var events := [InitForks(77, false), ChildReported(77, 9, o)];
      && Feasible(Initial(), events)
      && Run(Initial(), events).process == {77}
      && Run(Initial(), events).kernel.children == map[]
  {
    var e1, e2 := InitForks(77, false), ChildReported(77, 9, o);
    var s1 := Step(Initial(), e1);
    var s2 := Step(s1, e2);
    RunFrom(s1, e2, []);
    RunFrom(Initial(), e1, [e2]);
    assert s2.kernel.children == map[];
  }

  /** The 32-bit daemon is forked for a zygote and exits: it stays recorded running, and its pid enters the ledger. */
  lemma DeadDaemonStaysRecorded(now: int)
    requires now >= 30
    ensures
      var attach, exec := StopStatus(SIGSTOP, EVENT_STOP), StopStatus(SIGTRAP, EVENT_EXEC);
      var o := Outside(AppProcess(Abi32), now, 50, 0, false);
      var events := [InitForks(77, false), ChildReported(77, attach, o), ChildReported(77, exec, o),
                     ChildReported(50, 0, o.(daemonFork := -1))];
      && Feasible(Initial(), events)
      && (var s := Run(Initial(), events);
          s.abi32.daemonRunning && s.kernel.daemons == {} && s.process == {50})
  {
    var attach, exec := StopStatus(SIGSTOP, EVENT_STOP), StopStatus(SIGTRAP, EVENT_EXEC);
    var o := Outside(AppProcess(Abi32), now, 50, 0, false);
    var e1, e2, e3, e4 := InitForks(77, false), ChildReported(77, attach, o), ChildReported(77, exec, o),
                          ChildReported(50, 0, o.(daemonFork := -1));
    var s1 := Step(Initial(), e1);
    var s2 := Step(s1, e2);
    assert s2.process == {77} && s2.kernel.children == map[77 := Live] && s2.tracing == TRACING;
    var s3 := Step(s2, e3);
    DaemonForkedForZygote(s2, now);
    assert s3.process == {} && s3.kernel.daemons == {50};
    RunFrom(s3, e4, []);
    RunFrom(s2, e3, [e4]);
    RunFrom(s1, e2, [e3, e4]);
    RunFrom(Initial(), e1, [e2, e3, e4]);
  }

  /** A first zygote start: the daemon is forked, and the child, here dead before its hand-over, is forgotten. */
  lemma DaemonForkedForZygote(s: State, now: int)
    requires s.tracing == TRACING && s.abi32 == NEW_RECORD && !s.abi64.supported && s.abi64.daemonPid == -1
    requires 77 in s.process && s.kernel.children == map[77 := Live] && now >= 30
    ensures
      var o := Outside(AppProcess(Abi32), now, 50, 0, false);
      var t := OnChildReported(s, 77, StopStatus(SIGTRAP, EVENT_EXEC), o);
      && t.process == s.process - {77} && t.running == s.running && t.abi64 == s.abi64
      && t.kernel.children == map[] && t.kernel.daemons == s.kernel.daemons - {77} + {50}
      && t.abi32.supported && t.abi32.daemonPid == 50 && t.abi32.daemonRunning
  {
    var exec := StopStatus(SIGTRAP, EVENT_EXEC);
    var seen := Seen(s, 77, exec);
    assert seen.kernel.children == map[77 := Halted];
    var counted := CountStart(seen, Abi32, now);
    assert counted.abi32.counter == Counter(now, 0);
    assert map[77 := Live] - {77} == map[];
    assert seen.kernel.children[77 := Live] - {77} == map[];
  }

  // ------------------------------------------------------------ does a stop complete?

  /** Neither a datagram nor a trap of init that is not due to the interrupt. */
  predicate Unprompted(events: seq<Event>)
  {
    forall i :: 0 <= i < |events| ==>
      !events[i].Datagram? && (events[i].InitStops? && TrapStop(events[i].status) ==> events[i].takesInterrupt)
  }

  ghost predicate CanComplete(s: State)
  {
    exists events :: Feasible(s, events) && Unprompted(events) && Run(s, events).tracing == STOPPED
  }

  /**
   In every run that has reached STOPPING, the stop can still complete by itself if and only if no other stop of init
   absorbed the interrupt since the stop was ordered. Otherwise the state stays STOPPING until a new
   datagram or an unrelated trap.
   */
  lemma StopCompletesIff(before: seq<Event>)
    requires Feasible(Initial(), before) && Run(Initial(), before).tracing == STOPPING
    ensures CanComplete(Run(Initial(), before)) <==> !InterruptLost(Run(Initial(), before).log)
  {
    InitialInv();
    RunKeepsInv(Initial(), before);
    var s := Run(Initial(), before);
    if InterruptLost(s.log) {
      forall events | Feasible(s, events) && Unprompted(events)
        ensures Run(s, events).tracing == STOPPING
      {
        LostStaysStopping(s, events);
      }
    } else {
      var events := PendingStopCompletes(s);
    }
  }

  lemma LostStepStaysStopping(s: State, e: Event)
    requires Inv(s) && s.tracing == STOPPING && InterruptLost(s.log) && Enabled(s, e) && Unprompted([e])
    ensures Step(s, e).tracing == STOPPING && InterruptLost(Step(s, e).log)
  {
    assert !StopPending(s.kernel);
    assert !([e][0].Datagram?);
  }

  lemma {:induction false} LostStaysStopping(s: State, events: seq<Event>)
    requires Inv(s) && s.tracing == STOPPING && InterruptLost(s.log)
    requires Feasible(s, events) && Unprompted(events)
    ensures Run(s, events).tracing == STOPPING
    decreases |events|
  {
    if events == [] {
      assert Run(s, events) == s;
    } else {
      assert [events[0]][0] == events[0];
      LostStepStaysStopping(s, events[0]);
      StepKeepsInv(s, events[0]);
      assert forall i :: 0 <= i < |events[1..]| ==> events[1..][i] == events[i + 1];
      LostStaysStopping(Step(s, events[0]), events[1..]);
    }
  }

  /** The pending stop is delivered, and the next handling of an init status detaches init. */
  lemma PendingStopCompletes(s: State) returns (events: seq<Event>)
    requires Inv(s) && s.tracing == STOPPING && !InterruptLost(s.log)
    ensures Feasible(s, events) && Unprompted(events)
    ensures Run(s, events).tracing == STOPPED && !Run(s, events).kernel.attached
  {
    var trap := StopStatus(SIGTRAP, EVENT_STOP);
    if s.kernel.init.Running? {
      events := [InitStops(trap, true), InitReported(trap)];
      DeliverStop(s);
    } else {
      var first := InitReported(s.kernel.init.status);
      if TrapStop(s.kernel.init.status) {
        events := [first];
        RunFrom(s, first, []);
      } else {
        events := [first] + [InitStops(trap, true), InitReported(trap)];
        DeliverStop(Step(s, first));
        RunFrom(s, first, [InitStops(trap, true), InitReported(trap)]);
      }
    }
  }

  lemma DeliverStop(s: State)
    requires s.running && s.tracing == STOPPING && s.kernel.attached && s.kernel.init.Running? && s.kernel.interrupt
    ensures
      var trap := StopStatus(SIGTRAP, EVENT_STOP);
      var events := [InitStops(trap, true), InitReported(trap)];
      && Feasible(s, events)
      && Run(s, events).tracing == STOPPED && !Run(s, events).kernel.attached
  {
    var trap := StopStatus(SIGTRAP, EVENT_STOP);
    var e1, e2 := InitStops(trap, true), InitReported(trap);
    RunFrom(Step(s, e1), e2, []);
    RunFrom(s, e1, [e2]);
  }

  /**
   The concrete run: the stop of a fork absorbs the interrupt, the handler continues init, and the state is STOPPING
   with nothing pending; a second STOP is ignored.
   */
  lemma ForkAbsorbsInterrupt()
    ensures
      var fork := StopStatus(SIGTRAP, EVENT_FORK);
      var events := [Datagram(STOP), InitForks(77, true), InitReported(fork), Datagram(STOP)];
      && Feasible(Initial(), events)
      && (var s := Run(Initial(), events);
          && s.tracing == STOPPING && s.kernel.attached && s.kernel.init.Running?
          && !StopPending(s.kernel) && !CanComplete(s))
  {
    var fork := StopStatus(SIGTRAP, EVENT_FORK);
    var e1, e2, e3, e4 := Datagram(STOP), InitForks(77, true), InitReported(fork), Datagram(STOP);
    var s1 := Step(Initial(), e1);
    var s2 := Step(s1, e2);
    var s3 := Step(s2, e3);
    RunFrom(s3, e4, []);
    RunFrom(s2, e3, [e4]);
    RunFrom(s1, e2, [e3, e4]);
    RunFrom(Initial(), e1, [e2, e3, e4]);
    LostExtends([StopOrdered], InterruptAbsorbed);
    assert s3.log == [StopOrdered] + [InterruptAbsorbed];
    StopCompletesIff([e1] + [e2, e3, e4]);
    assert [e1] + [e2, e3, e4] == [e1, e2, e3, e4];
  }
}
