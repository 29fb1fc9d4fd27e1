/**
 The init monitor as the program is written: fields updated in place by event handlers. Every handler performs a step of
 the transition system, so the class keeps its invariant and `Serve` delivers what was proved of all runs.
 */
module Monitor {
  import opened Prelude
  import opened Ptrace
  import opened CrashLoop
  import opened MonitorModel
  import opened MonitorProofs
  import opened MonitorSteps

  class InitMonitor {
    var tracingState: TracingState
    var running: bool
    var process: set<Pid>
    var abi64: AbiRecord
    var abi32: AbiRecord
    ghost var kernel: Kernel
    ghost var log: seq<Entry>
    ghost var stale: set<Pid>
    ghost var stillborn: bool
    ghost var unread: set<Pid>

    ghost function Model(): State
      reads this
    {
      State(tracingState, running, process, abi64, abi32, kernel, log, stale, stillborn, unread)
    }

    ghost predicate Valid()
      reads this
    {
      Inv(Model())
    }

    constructor ()
      ensures Valid() && Model() == Initial()
    {
      tracingState, running, process, abi64, abi32 := TRACING, true, {}, NEW_RECORD, NEW_RECORD;
      kernel := SeizeInit(NEW_KERNEL);
      log, stale, stillborn, unread := [], {}, false, {};
      new;
      InitialInv();
    }

    method SetRecord(abi: Abi, r: AbiRecord)
      modifies this`abi64, this`abi32
      ensures Model() == WithRecord(old(Model()), abi, r)
    {
      if abi == Abi64 {
        abi64 := r;
      } else {
        abi32 := r;
      }
    }

    method GetRecord(abi: Abi) returns (r: AbiRecord)
      ensures r == Record(Model(), abi)
    {
      r := if abi == Abi64 then abi64 else abi32;
    }

    method HandleDatagram(cmd: Command)
      modifies this
      ensures Model() == OnDatagram(old(Model()), cmd)
    {
      match cmd {
        case START =>
          if tracingState == STOPPING {
            tracingState := TRACING;
            log := log + [StartAccepted];
          } else if tracingState == STOPPED {
            kernel := SeizeInit(kernel);
            tracingState := TRACING;
            log := log + [StartAccepted];
          }
        case STOP =>
          if tracingState == TRACING {
            BeginStopping();
          }
        case EXIT =>
          tracingState := EXITING;
          running := false;
        case ZYGOTE_INJECTED(abi) =>
          var r := GetRecord(abi);
          SetRecord(abi, r.(injected := true));
        case DAEMON_SET_ERROR_INFO(abi) =>
          var r := GetRecord(abi);
          SetRecord(abi, r.(daemonRunning := false));
        case OTHER_COMMAND =>
      }
    }

    method BeginStopping()
      modifies this`tracingState, this`kernel, this`log
      ensures Model() == OrderStop(old(Model()))
    {
      tracingState := STOPPING;
      kernel := InterruptInit(kernel);
      log := log + [StopOrdered];
    }

    method HandleInitStatus(status: Status)
      modifies this`tracingState, this`kernel
      ensures Model() == OnInitReported(old(Model()), status)
    {
      if StoppedWith(status, SIGTRAP, EVENT_FORK) {
        // the child announces itself with its own status
      } else if TrapStop(status) && tracingState == STOPPING {
        kernel := DetachInit(kernel);
        tracingState := STOPPED;
        return;
      }
      if WIfStopped(status) {
        if WPtEvent(status) == 0 {
          var sig := WStopSig(status);
          if !StoppingSignal(sig) {
            kernel := ContInit(kernel, sig);
            return;
          }
        }
        kernel := ContInit(kernel, 0);
      }
    }

    /** The start is counted; the answer is whether the last five gaps of all starts so far are short. */
    method ShouldStopInject(abi: Abi, now: int) returns (stop: bool)
      modifies this`abi64, this`abi32
      ensures Model() == CountStart(old(Model()), abi, now)
      ensures stop == TooManyStarts(Model(), abi)
      ensures old(BookInv(Model())) ==> (stop <==> CrashLooping(old(Record(Model(), abi)).starts + [now]))
    {
      if BookInv(Model()) {
        CountStartKeeps(Model(), abi, now);
        StopTestIsCrashLoop(Record(Model(), abi).starts + [now]);
      }
      var r := GetRecord(abi);
      var count := 0;
      if now - r.counter.last < RETRY_WINDOW {
        count := r.counter.count + 1;
      }
      SetRecord(abi, r.(counter := Counter(now, count), starts := r.starts + [now]));
      return count >= MAX_RETRY_COUNT;
    }

    /** The answer is whether a daemon is recorded running afterwards; over all calls one is forked at most once. */
    method EnsureDaemonCreated(abi: Abi, forked: Pid) returns (ok: bool)
      modifies this`abi64, this`abi32, this`kernel, this`log
      ensures Model() == EnsureDaemon(old(Model()), abi, forked)
      ensures ok == DaemonEnsured(old(Model()), abi, forked)
      ensures old(BookInv(Model())) && tracingState == TRACING ==>
                && (ok <==> Record(Model(), abi).daemonRunning)
                && BookInv(Model()) && DaemonForks(log, abi) <= 1
    {
      if BookInv(Model()) && tracingState == TRACING {
        EnsureDaemonKeeps(Model(), abi, forked);
        assert RecordInv(EnsureDaemon(Model(), abi, forked), abi);
      }
      var r := GetRecord(abi);
      SetRecord(abi, r.(injected := false));
      if r.daemonPid == -1 {
        if forked < 0 {
          return false;
        }
        SetRecord(abi, r.(injected := false, supported := true, daemonPid := forked, daemonRunning := true));
        kernel := kernel.(daemons := kernel.daemons + {forked});
        log := log + [DaemonForked(abi)];
        return true;
      }
      return r.daemonRunning;
    }

    /** The `do { ... } while (false)` block; returns the new value of `status`. */
    method Inject(pid: Pid, status0: Status, o: Outside) returns (status: Status)
      modifies this
      ensures (Model(), status) == TryInject(old(Model()), pid, status0, o)
    {
      status := status0;
      if tracingState != TRACING || !o.program.AppProcess? {
        return;
      }
      var abi := o.program.abi;
      var stop := ShouldStopInject(abi, o.now);
      if stop {
        BeginStopping();
        return;
      }
      var ok := EnsureDaemonCreated(abi, o.daemonFork);
      if !ok {
        BeginStopping();
        return;
      }
      kernel := Cont(kernel, pid);
      status := o.nextStatus;
      kernel := Report(kernel, pid, status);
      if StoppedWith(status, SIGSTOP, 0) {
        kernel := Detach(kernel, pid, SIGSTOP);
        status := 0;
        if o.tracerForked {
          var r := GetRecord(abi);
          log := log + [TracerLaunched(abi, pid, tracingState, r.daemonRunning, r.starts)];
        } else {
          log := log + [ChildKilled(pid)];
        }
      }
    }

    method HandleChildStatus(pid: Pid, status0: Status, o: Outside)
      modifies this
      ensures Model() == OnChildReported(old(Model()), pid, status0, o)
    {
      kernel := Report(kernel, pid, status0);
      unread := unread - {pid};
      if abi64.supported && pid == abi64.daemonPid {
        SetRecord(Abi64, abi64.(daemonRunning := false));
        return;
      }
      if abi32.supported && pid == abi64.daemonPid {
        SetRecord(Abi32, abi32.(daemonRunning := false));
        return;
      }
      HandleProcessStatus(pid, status0, o);
    }

    method HandleProcessStatus(pid: Pid, status0: Status, o: Outside)
      modifies this
      ensures Model() == OnProcessReported(old(Model()), pid, status0, o)
    {
      var status := status0;
      if pid !in process {
        process := process + {pid};
        kernel := SetOptions(kernel, pid);
        kernel := Cont(kernel, pid);
        stale := if WIfStopped(status) then stale else stale + {pid};
        stillborn := stillborn || !WIfStopped(status);
        return;
      }
      if StoppedWith(status, SIGTRAP, EVENT_EXEC) {
        if o.program.Unreadable? {
          unread := unread + {pid};
          return;
        }
        status := Inject(pid, status, o);
      }
      process := process - {pid};
      stale := stale - {pid};
      if WIfStopped(status) {
        kernel := Detach(kernel, pid, 0);
      }
    }

    method HandleWaitFailure(leftover: Status)
      modifies this`process, this`kernel, this`stale, this`abi64, this`abi32
      ensures Model() == OnNothingToWaitFor(old(Model()), leftover)
    {
      if tracingState == STOPPED {
        return;
      }
      if abi64.supported && -1 == abi64.daemonPid {
        SetRecord(Abi64, abi64.(daemonRunning := false));
        return;
      }
      if abi32.supported && -1 == abi64.daemonPid {
        SetRecord(Abi32, abi32.(daemonRunning := false));
        return;
      }
      if -1 !in process {
        process := process + {-1};
        kernel := Cont(SetOptions(kernel, -1), -1);
      } else if !StoppedWith(leftover, SIGTRAP, EVENT_EXEC) {
        process := process - {-1};
        stale := stale - {-1};
        if WIfStopped(leftover) {
          kernel := Detach(kernel, -1, 0);
        }
      }
    }

    /** A step of the kernel that the monitor has not been told of yet. */
    ghost method KernelMoves(e: Event)
      requires e.InitStops? || e.InitForks?
      requires Enabled(Model(), e)
      modifies this`kernel, this`log
      ensures Model() == Step(old(Model()), e)
    {
      kernel, log := Step(Model(), e).kernel, Step(Model(), e).log;
    }

    /** One event. A child's status launches a tracer, kills, or orders a stop exactly when `StatusOutcome` says. */
    method Handle(e: Event)
      requires Valid() && Enabled(Model(), e)
      modifies this
      ensures Valid() && Model() == Step(old(Model()), e)
      ensures if e.ChildReported? then StatusOutcome(old(Model()), Model(), e.pid, e.status, e.outside)
              else NothingLaunched(old(Model()), Model())
    {
      StepKeepsInv(Model(), e);
      if e.ChildReported? {
        LaunchedIff(Model(), e.pid, e.status, e.outside);
      } else {
        OnlyStatusesLaunch(Model(), e);
      }
      match e {
        case Datagram(cmd) => HandleDatagram(cmd);
        case InitReported(status) => HandleInitStatus(status);
        case ChildReported(pid, status, o) => HandleChildStatus(pid, status, o);
        case NothingToWaitFor(leftover) => HandleWaitFailure(leftover);
        case _ => KernelMoves(e);
      }
    }

    /**
     However the events come, afterwards init is traced as recorded, the ledger is exact up to pids whose first status
     was a death, the children left stopped are those whose program could not be read, and every tracer and daemon
     launched so far was launched under its guards.
     */
    method Serve(events: seq<Event>)
      requires Valid() && Feasible(Model(), events)
      modifies this
      ensures Valid() && Model() == Run(old(Model()), events)
      ensures InitAsRecorded(Model()) && LedgerExact(Model()) && ProcessesAsRecorded(Model()) && LaunchesGuarded(log)
    {
      for i := 0 to |events|
        invariant Valid() && Feasible(Model(), events[i..])
        invariant Run(Model(), events[i..]) == Run(old(Model()), events)
      {
        assert events[i..][1..] == events[i + 1..];
        Handle(events[i]);
      }
      InvGuardsLaunches(Model());
    }
  }
}
