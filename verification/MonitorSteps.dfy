/**
 What a single status of a child or of init does in any reachable state (loader/src/ptracer/monitor.cpp:421-443,
 510-544 and 549-629), said in terms of the state before and of what the outside supplies.
 */
module MonitorSteps {
  import opened Prelude
  import opened Ptrace
  import opened CrashLoop
  import opened MonitorModel
  import opened MonitorProofs

  /** A known child executes the zygote's program while tracing is on. */
  predicate ZygoteStarts(s: State, pid: Pid, status: Status, o: Outside)
  {
    s.tracing == TRACING && pid in s.process && StoppedWith(status, SIGTRAP, EVENT_EXEC) && o.program.AppProcess?
  }

  /** With this start the zygote is crash-looping, or its daemon neither runs nor can be started. */
  predicate Refused(s: State, o: Outside)
    requires o.program.AppProcess?
  {
    var r := Record(s, o.program.abi);
    || CrashLooping(r.starts + [o.now])
    || (if r.daemonPid == -1 then o.daemonFork < 0 else !r.daemonRunning)
  }

  /** The start is not refused and the child reaches its SIGSTOP. */
  predicate HandedOver(s: State, pid: Pid, status: Status, o: Outside)
  {
    ZygoteStarts(s, pid, status, o) && !Refused(s, o) && StoppedWith(o.nextStatus, SIGSTOP, 0)
  }

  /** The launches in the history, in order. */
  function Launches(log: seq<Entry>): seq<Entry>
  {
    if log == [] then []
    else Launches(log[..|log| - 1]) + if log[|log| - 1].TracerLaunched? then [log[|log| - 1]] else []
  }

  /** The children killed because no tracer could be forked, in order. */
  function Kills(log: seq<Entry>): seq<Entry>
  {
    if log == [] then []
    else Kills(log[..|log| - 1]) + if log[|log| - 1].ChildKilled? then [log[|log| - 1]] else []
  }

  lemma HistoryExtends(log: seq<Entry>, e: Entry)
    ensures Launches(log + [e]) == Launches(log) + if e.TracerLaunched? then [e] else []
    ensures Kills(log + [e]) == Kills(log) + if e.ChildKilled? then [e] else []
  {
    assert (log + [e])[..|log|] == log;
  }

  /** What is launched and killed, and with what signal the child is released, when it is handed over. */
  ghost predicate HandOverDone(s: State, t: State, pid: Pid, abi: Abi, starts: seq<int>, forked: bool)
  {
    && Launches(t.log) == Launches(s.log) + (if forked then [TracerLaunched(abi, pid, TRACING, true, starts)] else [])
    && Kills(t.log) == Kills(s.log) + (if forked then [] else [ChildKilled(pid)])
    && t.kernel.released == s.kernel.released + [(pid, SIGSTOP)]
    && pid !in t.kernel.children
  }

  ghost predicate NothingLaunched(s: State, t: State)
  {
    Launches(t.log) == Launches(s.log) && Kills(t.log) == Kills(s.log)
  }

  ghost predicate StopOrderedIn(t: State)
  {
    t.tracing == STOPPING && t.kernel.interrupt && t.log != [] && t.log[|t.log| - 1] == StopOrdered
  }

  lemma HandOverOutcome(s: State, pid: Pid, abi: Abi, o: Outside)
    requires s.tracing == TRACING && InStop(s.kernel, pid) && Record(s, abi).daemonRunning
    ensures
      var (t, status) := HandOver(s, pid, abi, o);
      && t.tracing == TRACING && Record(t, abi) == Record(s, abi)
      && (if StoppedWith(o.nextStatus, SIGSTOP, 0)
          then status == 0 && HandOverDone(s, t, pid, abi, Record(s, abi).starts, o.tracerForked)
          else NothingLaunched(s, t))
  {
    HistoryExtends(s.log, TracerLaunched(abi, pid, s.tracing, Record(s, abi).daemonRunning, Record(s, abi).starts));
    HistoryExtends(s.log, ChildKilled(pid));
  }

  lemma OrderStopOutcome(s: State)
    requires s.kernel.attached
    ensures StopOrderedIn(OrderStop(s)) && NothingLaunched(s, OrderStop(s))
  {
    HistoryExtends(s.log, StopOrdered);
  }

  lemma EnsureDaemonOutcome(s: State, abi: Abi, forked: Pid)
    requires BookInv(s) && s.tracing == TRACING
    ensures
      var t := EnsureDaemon(s, abi, forked);
      && NothingLaunched(s, t) && t.kernel == s.kernel.(daemons := t.kernel.daemons) && t.tracing == TRACING
      && Record(t, abi).starts == Record(s, abi).starts && !Record(t, abi).injected
      && (Record(t, abi).daemonRunning <==> DaemonEnsured(s, abi, forked))
      && DaemonForks(t.log, abi) ==
           DaemonForks(s.log, abi) + if Record(s, abi).daemonPid == -1 && forked >= 0 then 1 else 0
  {
    EnsureDaemonKeeps(s, abi, forked);
    HistoryExtends(s.log, DaemonForked(abi));
    ForksExtend(s.log, DaemonForked(abi), abi);
  }

  /** The outcome of one zygote start, once counted. */
  ghost predicate StartOutcome(s: State, t: State, status': Status, pid: Pid, o: Outside)
    requires o.program.AppProcess?
  {
    var abi := o.program.abi;
    var starts := Record(s, abi).starts + [o.now];
    && Record(t, abi).starts == starts && (CrashLooping(starts) || !Record(t, abi).injected)
    && (if Refused(s, o) then StopOrderedIn(t) && NothingLaunched(s, t)
        else
          && t.tracing == TRACING
          && (if StoppedWith(o.nextStatus, SIGSTOP, 0)
              then status' == 0 && HandOverDone(s, t, pid, abi, starts, o.tracerForked)
              else NothingLaunched(s, t)))
  }

  lemma RefusedIff(s: State, counted: State, o: Outside)
    requires o.program.AppProcess? && counted == CountStart(s, o.program.abi, o.now) && BookInv(counted)
    ensures Refused(s, o) <==>
            TooManyStarts(counted, o.program.abi) || !DaemonEnsured(counted, o.program.abi, o.daemonFork)
    ensures TooManyStarts(counted, o.program.abi) ==> CrashLooping(Record(s, o.program.abi).starts + [o.now])
    ensures Record(counted, o.program.abi).starts == Record(s, o.program.abi).starts + [o.now]
    ensures counted.log == s.log && counted.kernel == s.kernel && counted.tracing == s.tracing
  {
    StopTestIsCrashLoop(Record(counted, o.program.abi).starts);
  }

  lemma CountedOutcome(s: State, counted: State, pid: Pid, status: Status, o: Outside)
    requires o.program.AppProcess? && counted == CountStart(s, o.program.abi, o.now)
    requires InitInv(s) && BookInv(s) && BookInv(counted) && s.tracing == TRACING && InStop(s.kernel, pid)
    ensures
      var (t, status') := InjectCounted(counted, pid, status, o.program.abi, o);
      StartOutcome(s, t, status', pid, o)
  {
    var abi := o.program.abi;
    RefusedIff(s, counted, o);
    if TooManyStarts(counted, abi) {
      OrderStopOutcome(counted);
    } else {
      var ensured := EnsureDaemon(counted, abi, o.daemonFork);
      EnsureDaemonOutcome(counted, abi, o.daemonFork);
      if !DaemonEnsured(counted, abi, o.daemonFork) {
        OrderStopOutcome(ensured);
      } else {
        HandOverOutcome(ensured, pid, abi, o);
      }
    }
  }

  /** The whole injection block. */
  lemma TryInjectOutcome(s: State, pid: Pid, status: Status, o: Outside)
    requires InitInv(s) && BookInv(s) && InStop(s.kernel, pid)
    ensures
      var (t, status') := TryInject(s, pid, status, o);
      if s.tracing == TRACING && o.program.AppProcess? then StartOutcome(s, t, status', pid, o)
      else t == s && status' == status
  {
    if s.tracing == TRACING && o.program.AppProcess? {
      var counted := CountStart(s, o.program.abi, o.now);
      CountStartKeeps(s, o.program.abi, o.now);
      LaunchKept(s, counted);
      CountedOutcome(s, counted, pid, status, o);
    }
  }

  /**
   What a status of a child does to the launches, the kills and the state: a tracer is launched, once and for this
   child, if and only if a zygote start is handed over and a tracer can be forked; the child is then released with
   SIGSTOP and forgotten; a refused start, and nothing else, orders a stop.
   */
  ghost predicate StatusOutcome(s: State, t: State, pid: Pid, status: Status, o: Outside)
  {
    && Launches(t.log) == Launches(s.log) +
         (if HandedOver(s, pid, status, o) && o.tracerForked
          then [TracerLaunched(o.program.abi, pid, TRACING, true, Record(s, o.program.abi).starts + [o.now])] else [])
    && Kills(t.log) == Kills(s.log) +
         (if HandedOver(s, pid, status, o) && !o.tracerForked then [ChildKilled(pid)] else [])
    && (HandedOver(s, pid, status, o) ==>
          && t.kernel.released == s.kernel.released + [(pid, SIGSTOP)]
          && pid !in t.process && pid !in t.kernel.children)
    && (if ZygoteStarts(s, pid, status, o) && Refused(s, o) then StopOrderedIn(t) else t.tracing == s.tracing)
    && (ZygoteStarts(s, pid, status, o) ==>
          var starts := Record(s, o.program.abi).starts + [o.now];
          Record(t, o.program.abi).starts == starts && (CrashLooping(starts) || !Record(t, o.program.abi).injected))
  }

  /** Forgetting the child afterwards changes nothing else. */
  lemma ForgetOutcome(s: State, s': State, pid: Pid, status: Status, status': Status, o: Outside)
    requires ZygoteStarts(s, pid, status, o) && StartOutcome(s, s', status', pid, o)
    ensures StatusOutcome(s, Forget(s', pid, status'), pid, status, o)
  {
    var t := Forget(s', pid, status');
    assert t.log == s'.log && t.tracing == s'.tracing && t.kernel.interrupt == s'.kernel.interrupt;
    assert t.abi64 == s'.abi64 && t.abi32 == s'.abi32;
  }

  /** The outcome is about the history, the records and the released children only. */
  lemma OutcomeFrame(s: State, seen: State, t: State, pid: Pid, status: Status, o: Outside)
    requires StatusOutcome(seen, t, pid, status, o)
    requires s.tracing == seen.tracing && s.process == seen.process && s.log == seen.log
    requires s.abi64 == seen.abi64 && s.abi32 == seen.abi32 && s.kernel.released == seen.kernel.released
    ensures StatusOutcome(s, t, pid, status, o)
  {
  }

  lemma ZygoteStatusOutcome(s: State, pid: Pid, status: Status, o: Outside)
    requires Inv(s) && Enabled(s, ChildReported(pid, status, o)) && ZygoteStarts(s, pid, status, o)
    ensures StatusOutcome(s, Step(s, ChildReported(pid, status, o)), pid, status, o)
  {
    var seen := Seen(s, pid, status);
    var (s', status') := TryInject(seen, pid, status, o);
    InitKept(s, seen);
    BookKept(s, seen);
    TryInjectOutcome(seen, pid, status, o);
    ForgetOutcome(seen, s', pid, status, status', o);
    OutcomeFrame(s, seen, Forget(s', pid, status'), pid, status, o);
    ZygoteStepIsForget(s, pid, status, o);
  }

  lemma ZygoteStepIsForget(s: State, pid: Pid, status: Status, o: Outside)
    requires Inv(s) && Enabled(s, ChildReported(pid, status, o)) && ZygoteStarts(s, pid, status, o)
    ensures
      var (s', status') := TryInject(Seen(s, pid, status), pid, status, o);
      Step(s, ChildReported(pid, status, o)) == Forget(s', pid, status')
  {
    assert pid in s.kernel.children && DaemonTaken(s, pid) == None;
  }

  /** For every status of every child in every reachable state. */
  lemma LaunchedIff(s: State, pid: Pid, status: Status, o: Outside)
    requires Inv(s) && Enabled(s, ChildReported(pid, status, o))
    ensures StatusOutcome(s, Step(s, ChildReported(pid, status, o)), pid, status, o)
  {
    if ZygoteStarts(s, pid, status, o) {
      ZygoteStatusOutcome(s, pid, status, o);
    } else {
      OtherStatusOutcome(s, pid, status, o);
    }
  }

  lemma OtherStatusOutcome(s: State, pid: Pid, status: Status, o: Outside)
    requires Inv(s) && Enabled(s, ChildReported(pid, status, o)) && !ZygoteStarts(s, pid, status, o)
    ensures
      var t := Step(s, ChildReported(pid, status, o));
      t.log == s.log && t.tracing == s.tracing
  {
  }

  /** No other event launches a tracer or kills a child. */
  lemma OnlyStatusesLaunch(s: State, e: Event)
    requires Enabled(s, e) && !e.ChildReported?
    ensures NothingLaunched(s, Step(s, e))
  {
    var added := OtherEntry(s, e);
    HistoryExtends(s.log, added);
  }

  lemma OtherEntry(s: State, e: Event) returns (added: Entry)
    requires Enabled(s, e) && !e.ChildReported?
    ensures !added.TracerLaunched? && !added.ChildKilled?
    ensures Step(s, e).log == s.log || Step(s, e).log == s.log + [added]
  {
    match e
    case Datagram(cmd) => added := if cmd == START then StartAccepted else StopOrdered;
    case InitStops(status, _) => added := if TrapStop(status) then InitTrapped else InterruptAbsorbed;
    case _ => added := InterruptAbsorbed;
  }

  /**
   A stop of init is always answered: init is detached if this is the trap of an ordered stop, and otherwise it runs
   on, with its signal if the stop is the delivery of a signal other than a job-control stop.
   */
  lemma InitStopIsAnswered(s: State, status: Status)
    requires Inv(s) && Enabled(s, InitReported(status))
    ensures
      var t := Step(s, InitReported(status));
      if s.tracing == STOPPING && status == StopStatus(SIGTRAP, EVENT_STOP)
      then !t.kernel.attached && t.tracing == STOPPED
      else
        && t.kernel.attached && t.kernel.init == Running && t.tracing == s.tracing
        && (if WPtEvent(status) > 0 || WStopSig(status) in {SIGSTOP, SIGTSTP, SIGTTIN, SIGTTOU, 0}
            then t.kernel.delivered == s.kernel.delivered
            else t.kernel.delivered == s.kernel.delivered + [WStopSig(status)])
  {
    assert WIfStopped(status);
  }

  /**
   Commands take effect in every reachable state that has not exited: after START the state is TRACING with init
   attached; after a STOP while tracing a stop is pending; other commands leave the state; EXIT ends the event loop.
   */
  lemma CommandsTakeEffect(s: State, cmd: Command)
    requires Inv(s) && s.tracing != EXITING
    ensures
      var t := Step(s, Datagram(cmd));
      match cmd
      case START => t.tracing == TRACING && t.kernel.attached
      case STOP => if s.tracing == TRACING then t.tracing == STOPPING && StopPending(t.kernel) else t == s
      case EXIT => t.tracing == EXITING && !t.running
      case ZYGOTE_INJECTED(abi) => t.tracing == s.tracing && Record(t, abi).injected
      case DAEMON_SET_ERROR_INFO(abi) => t.tracing == s.tracing && !Record(t, abi).daemonRunning
      case OTHER_COMMAND => t == s
  {
  }
}
