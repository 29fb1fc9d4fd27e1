/**
 The init monitor as a transition system (loader/src/ptracer/monitor.cpp): control datagrams, wait statuses
 of init and of its children, the `process` ledger, the crash-loop counters and the daemon records, next to
 the kernel of module Ptrace. `log`, `starts`, `stale`, `stillborn` and `unread` are history.
 */
module MonitorModel {
  import opened Prelude
  import opened Ptrace
  import opened CrashLoop

  datatype TracingState = TRACING | STOPPING | STOPPED | EXITING

  datatype Abi = Abi64 | Abi32

  /** What is recorded per ABI: the Status structure, the start counter, and the history of start times. */
  datatype AbiRecord = AbiRecord(
    supported: bool, injected: bool, daemonRunning: bool, daemonPid: Pid, counter: Counter, starts: seq<int>)

  const NEW_RECORD := AbiRecord(false, false, false, -1, NEW_COUNTER, [])

  datatype Entry =
    | StopOrdered
    | InitTrapped
    | InterruptAbsorbed
    | StartAccepted
    | DaemonForked(abi: Abi)
    | ChildKilled(pid: Pid)
    | TracerLaunched(abi: Abi, pid: Pid, state: TracingState, daemonRunning: bool, starts: seq<int>)

  /**
   `stale` holds the pids of the ledger whose first status was a death, that is, children killed before their first stop
   and 32-bit daemons that exited; `stillborn` says that this ever happened. `unread` holds the children whose program
   could not be read at their last stop.
   */
  datatype State = State(
    tracing: TracingState, running: bool, process: set<Pid>, abi64: AbiRecord, abi32: AbiRecord,
    kernel: Kernel, log: seq<Entry>, stale: set<Pid>, stillborn: bool, unread: set<Pid>)

  datatype Command = START | STOP | EXIT | ZYGOTE_INJECTED(abi: Abi) | DAEMON_SET_ERROR_INFO(abi: Abi) | OTHER_COMMAND

  datatype Program = AppProcess(abi: Abi) | OtherProgram | Unreadable

  /** What the outside supplies while a child status is handled. */
  datatype Outside = Outside(program: Program, now: int, daemonFork: Pid, nextStatus: Status, tracerForked: bool)

  datatype Event =
    | Datagram(cmd: Command)
    | InitStops(status: Status, takesInterrupt: bool)
    | InitForks(child: Pid, takesInterrupt: bool)
    | InitReported(status: Status)
    | ChildReported(pid: Pid, status: Status, outside: Outside)
    | NothingToWaitFor(leftover: Status)

  function Initial(): State
  {
    State(TRACING, true, {}, NEW_RECORD, NEW_RECORD, SeizeInit(NEW_KERNEL), [], {}, false, {})
  }

  function Record(s: State, abi: Abi): AbiRecord
  {
    if abi == Abi64 then s.abi64 else s.abi32
  }

  function WithRecord(s: State, abi: Abi, r: AbiRecord): State
  {
    if abi == Abi64 then s.(abi64 := r) else s.(abi32 := r)
  }

  // ---------------------------------------------------------------- datagrams

  /** The state becomes STOPPING and init is interrupted. */
  function OrderStop(s: State): State
  {
    s.(tracing := STOPPING, kernel := InterruptInit(s.kernel), log := s.log + [StopOrdered])
  }

  function OnDatagram(s: State, cmd: Command): State
  {
    match cmd
    case START =>
      if s.tracing == STOPPING then s.(tracing := TRACING, log := s.log + [StartAccepted])
      else if s.tracing == STOPPED then
        s.(tracing := TRACING, kernel := SeizeInit(s.kernel), log := s.log + [StartAccepted])
      else s
    case STOP => if s.tracing == TRACING then OrderStop(s) else s
    case EXIT => s.(tracing := EXITING, running := false)
    case ZYGOTE_INJECTED(abi) => WithRecord(s, abi, Record(s, abi).(injected := true))
    case DAEMON_SET_ERROR_INFO(abi) => WithRecord(s, abi, Record(s, abi).(daemonRunning := false))
    case OTHER_COMMAND => s
  }

  // ------------------------------------------------------------- init statuses

  /** Init stops. A stop other than the interrupt's own that uses up the interrupt absorbs it. */
  function OnInitStops(s: State, status: Status, takesInterrupt: bool): State
  {
    s.(kernel := StopInit(s.kernel, status, takesInterrupt),
       log := if TrapStop(status) then s.log + [InitTrapped]
              else if takesInterrupt then s.log + [InterruptAbsorbed] else s.log)
  }

  /** The signal to pass on with a stop; job-control stops and ptrace events pass none. */
  function PassedOn(status: Status): nat
  {
    if WPtEvent(status) == 0 && !StoppingSignal(WStopSig(status)) then WStopSig(status) else 0
  }

  function OnInitReported(s: State, status: Status): State
  {
    if !StoppedWith(status, SIGTRAP, EVENT_FORK) && TrapStop(status) && s.tracing == STOPPING
    then s.(kernel := DetachInit(s.kernel), tracing := STOPPED)
    else if WIfStopped(status) then s.(kernel := ContInit(s.kernel, PassedOn(status)))
    else s
  }

  // ------------------------------------------------------------ child statuses

  function CountStart(s: State, abi: Abi, now: int): State
  {
    var r := Record(s, abi);
    WithRecord(s, abi, r.(counter := Tick(r.counter, now), starts := r.starts + [now]))
  }

  predicate TooManyStarts(s: State, abi: Abi)
  {
    Record(s, abi).counter.count >= MAX_RETRY_COUNT
  }

  /** The daemon record after `ensure_daemon_created`; `forked` is the result of its fork. */
  function EnsureDaemon(s: State, abi: Abi, forked: Pid): State
  {
    var r := Record(s, abi).(injected := false);
    if r.daemonPid == -1 && forked >= 0 then
      WithRecord(s, abi, r.(supported := true, daemonPid := forked, daemonRunning := true)).(
        kernel := s.kernel.(daemons := s.kernel.daemons + {forked}), log := s.log + [DaemonForked(abi)])
    else WithRecord(s, abi, r)
  }

  predicate DaemonEnsured(s: State, abi: Abi, forked: Pid)
  {
    if Record(s, abi).daemonPid == -1 then forked >= 0 else Record(s, abi).daemonRunning
  }

  /**
   SIGSTOP the child, let it reach its next status, and if that is the SIGSTOP hand it to a tracer, or kill it if no
   tracer can be forked.
   */
  function HandOver(s: State, pid: Pid, abi: Abi, o: Outside): (State, Status)
  {
    var waited := s.(kernel := Report(Cont(s.kernel, pid), pid, o.nextStatus));
    if StoppedWith(o.nextStatus, SIGSTOP, 0) then
      var r := Record(s, abi);
      var entry :=
        if o.tracerForked then TracerLaunched(abi, pid, s.tracing, r.daemonRunning, r.starts) else ChildKilled(pid);
      (waited.(kernel := Detach(waited.kernel, pid, SIGSTOP), log := s.log + [entry]), 0)
    else (waited, o.nextStatus)
  }

  /** What follows the counting of a zygote start. */
  function InjectCounted(s: State, pid: Pid, status: Status, abi: Abi, o: Outside): (State, Status)
  {
    if TooManyStarts(s, abi) then (OrderStop(s), status)
    else if !DaemonEnsured(s, abi, o.daemonFork) then (OrderStop(EnsureDaemon(s, abi, o.daemonFork)), status)
    else HandOver(EnsureDaemon(s, abi, o.daemonFork), pid, abi, o)
  }

  /** The `do { ... } while (false)` block: the new state and the new value of `status`. */
  function TryInject(s: State, pid: Pid, status: Status, o: Outside): (State, Status)
  {
    if s.tracing != TRACING || !o.program.AppProcess? then (s, status)
    else InjectCounted(CountStart(s, o.program.abi, o.now), pid, status, o.program.abi, o)
  }

  function Forget(s: State, pid: Pid, status: Status): State
  {
    s.(process := s.process - {pid}, stale := s.stale - {pid},
       kernel := if WIfStopped(status) then Detach(s.kernel, pid, 0) else s.kernel)
  }

  /** The checks for a daemon's exit; the one for the 32-bit daemon compares with the pid of the 64-bit one. */
  function DaemonTaken(s: State, pid: Pid): Option<Abi>
  {
    if s.abi64.supported && pid == s.abi64.daemonPid then Some(Abi64)
    else if s.abi32.supported && pid == s.abi64.daemonPid then Some(Abi32)
    else None
  }

  function OnDaemonExit(s: State, abi: Abi): State
  {
    WithRecord(s, abi, Record(s, abi).(daemonRunning := false))
  }

  /** A wait status of a pid other than 1. */
  function OnChildReported(s: State, pid: Pid, status: Status, o: Outside): State
  {
    var seen := s.(kernel := Report(s.kernel, pid, status), unread := s.unread - {pid});
    match DaemonTaken(s, pid)
    case Some(abi) => OnDaemonExit(seen, abi)
    case None => OnProcessReported(seen, pid, status, o)
  }

  function OnProcessReported(s: State, pid: Pid, status: Status, o: Outside): State
  {
    if pid !in s.process then
      s.(process := s.process + {pid}, kernel := Cont(SetOptions(s.kernel, pid), pid),
         stale := if WIfStopped(status) then s.stale else s.stale + {pid},
         stillborn := s.stillborn || !WIfStopped(status))
    else if StoppedWith(status, SIGTRAP, EVENT_EXEC) then
      if o.program.Unreadable? then s.(unread := s.unread + {pid})
      else
        var (s', status') := TryInject(s, pid, status, o);
        Forget(s', pid, status')
    else Forget(s, pid, status)
  }

  /**
   `waitpid` fails with ECHILD: the loop ends if the state is STOPPED, otherwise pid -1 is treated as a child whose
   status is what the last wait left behind and whose program cannot be read.
   */
  function OnNothingToWaitFor(s: State, leftover: Status): State
  {
    if s.tracing == STOPPED then s
    else if DaemonTaken(s, -1).Some? then OnDaemonExit(s, DaemonTaken(s, -1).value)
    else if -1 !in s.process then s.(process := s.process + {-1}, kernel := Cont(SetOptions(s.kernel, -1), -1))
    else if StoppedWith(leftover, SIGTRAP, EVENT_EXEC) then s
    else Forget(s, -1, leftover)
  }

  // -------------------------------------------------------------------- runs

  /** A pid that no traced child has and no daemon has or had. */
  predicate Unused(s: State, pid: Pid)
  {
    pid > 1 && pid !in s.kernel.children && pid != s.abi64.daemonPid && pid != s.abi32.daemonPid
  }

  /**
   What the kernel can do next. A child that has reported nothing can stop, but not for an exec, or die; a daemon
   exits.
   */
  predicate Enabled(s: State, e: Event)
  {
    match e
    case Datagram(_) => true
    case InitStops(status, takesInterrupt) =>
      s.kernel.attached && s.kernel.init.Running? && WIfStopped(status) && (takesInterrupt ==> s.kernel.interrupt)
    case InitForks(child, takesInterrupt) =>
      s.kernel.attached && s.kernel.init.Running? && Unused(s, child) && (takesInterrupt ==> s.kernel.interrupt)
    case InitReported(status) => s.running && s.kernel.init == Stopped(status)
    case ChildReported(pid, status, o) =>
      && s.running
      && (if pid in s.kernel.children
          then (s.kernel.children[pid] == Fresh ==> !StoppedWith(status, SIGTRAP, EVENT_EXEC)) &&
               (s.kernel.children[pid] == Halted ==> !WIfStopped(status))
          else pid in s.kernel.daemons && !WIfStopped(status))
      && (o.daemonFork < 0 || Unused(s, o.daemonFork))
    case NothingToWaitFor(_) => s.running && !s.kernel.attached && s.kernel.children == map[] && s.kernel.daemons == {}
  }

  function Step(s: State, e: Event): State
    requires Enabled(s, e)
  {
    match e
    case Datagram(cmd) => OnDatagram(s, cmd)
    case InitStops(status, takesInterrupt) => OnInitStops(s, status, takesInterrupt)
    case InitForks(child, takesInterrupt) =>
      var t := OnInitStops(s, StopStatus(SIGTRAP, EVENT_FORK), takesInterrupt);
      t.(kernel := t.kernel.(children := t.kernel.children[child := Fresh]))
    case InitReported(status) => OnInitReported(s, status)
    case ChildReported(pid, status, o) => OnChildReported(s, pid, status, o)
    case NothingToWaitFor(leftover) => OnNothingToWaitFor(s, leftover)
  }

  predicate Feasible(s: State, events: seq<Event>)
    decreases |events|
  {
    events == [] || (Enabled(s, events[0]) && Feasible(Step(s, events[0]), events[1..]))
  }

  function Run(s: State, events: seq<Event>): State
    requires Feasible(s, events)
    decreases |events|
  {
    if events == [] then s else Run(Step(s, events[0]), events[1..])
  }
}
