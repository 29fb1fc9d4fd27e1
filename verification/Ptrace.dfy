/** Wait statuses and the part of the kernel's ptrace behaviour that the init monitor relies on. */
module Ptrace {

  const SIGTRAP: nat := 5
  const SIGSTOP: nat := 19
  const SIGTSTP: nat := 20
  const SIGTTIN: nat := 21
  const SIGTTOU: nat := 22
  const EVENT_FORK: nat := 1
  const EVENT_EXEC: nat := 4
  const EVENT_STOP: nat := 128

  type Status = nat

  predicate WIfStopped(status: Status)
  {
    status % 256 == 127
  }

  function WStopSig(status: Status): nat
  {
    status / 256 % 256
  }

  function WPtEvent(status: Status): nat
  {
    status / 65536
  }

  predicate StoppedWith(status: Status, sig: nat, event: nat)
  {
    WIfStopped(status) && status / 256 == sig + 256 * event
  }

  function StopStatus(sig: nat, event: nat): (status: Status)
    ensures StoppedWith(status, sig, event)
  {
    127 + 256 * (sig + 256 * event)
  }

  /** The stop an interrupt causes. */
  predicate TrapStop(status: Status)
  {
    StoppedWith(status, SIGTRAP, EVENT_STOP)
  }

  /** The job-control signals whose default action is to stop a process. */
  predicate StoppingSignal(sig: nat)
  {
    sig == SIGSTOP || sig == SIGTSTP || sig == SIGTTIN || sig == SIGTTOU
  }

  type Pid = int

  datatype InitState = Running | Stopped(status: Status)

  /** A traced child that has not reported yet, runs, or is in a ptrace stop. */
  datatype Phase = Fresh | Live | Halted

  /**
   `interrupt` is an interrupt request init has not acted on; any stop of init may use it up. `delivered` holds the
   signals passed on to init. `daemons` are the daemons still running. `execTraced` are the children that stop at an
   exec. `released` holds the children detached and the signals they were left with. A request on a process in the wrong
   condition changes nothing but a fault count.
   */
  datatype Kernel = Kernel(
    attached: bool, init: InitState, interrupt: bool, children: map<Pid, Phase>, daemons: set<Pid>,
    execTraced: set<Pid>, released: seq<(Pid, nat)>, delivered: seq<nat>, initFaults: nat, resumeFaults: nat,
    detachFaults: nat)

  const NEW_KERNEL := Kernel(false, Running, false, map[], {}, {}, [], [], 0, 0, 0)

  function SeizeInit(k: Kernel): Kernel
  {
    if k.attached then k.(initFaults := k.initFaults + 1)
    else k.(attached := true, init := Running, interrupt := false)
  }

  function InterruptInit(k: Kernel): Kernel
  {
    if k.attached then k.(interrupt := true) else k.(initFaults := k.initFaults + 1)
  }

  /** Init stops; if `takesInterrupt`, an outstanding interrupt is used up by this stop. */
  function StopInit(k: Kernel, status: Status, takesInterrupt: bool): Kernel
  {
    k.(init := Stopped(status), interrupt := k.interrupt && !takesInterrupt)
  }

  /** Init continues; a signal other than 0 is passed on to it. */
  function ContInit(k: Kernel, sig: nat): Kernel
  {
    if k.attached && k.init.Stopped?
    then k.(init := Running, delivered := if sig == 0 then k.delivered else k.delivered + [sig])
    else k.(initFaults := k.initFaults + 1)
  }

  function DetachInit(k: Kernel): Kernel
  {
    if k.attached && k.init.Stopped? then k.(attached := false, init := Running, interrupt := false)
    else k.(initFaults := k.initFaults + 1)
  }

  /** A wait status was returned for the child: it stopped, or it is gone. A daemon, which is not traced, is gone. */
  function Report(k: Kernel, pid: Pid, status: Status): Kernel
  {
    k.(children := if WIfStopped(status) then k.children[pid := Halted] else k.children - {pid},
       execTraced := if WIfStopped(status) then k.execTraced else k.execTraced - {pid},
       daemons := k.daemons - {pid})
  }

  predicate InStop(k: Kernel, pid: Pid)
  {
    pid in k.children && k.children[pid] == Halted
  }

  /** Ask for a stop at the next exec. */
  function SetOptions(k: Kernel, pid: Pid): Kernel
  {
    if InStop(k, pid) then k.(execTraced := k.execTraced + {pid}) else k.(resumeFaults := k.resumeFaults + 1)
  }

  function Cont(k: Kernel, pid: Pid): Kernel
  {
    if InStop(k, pid) then k.(children := k.children[pid := Live]) else k.(resumeFaults := k.resumeFaults + 1)
  }

  function Detach(k: Kernel, pid: Pid, sig: nat): Kernel
  {
    if InStop(k, pid)
    then k.(children := k.children - {pid}, execTraced := k.execTraced - {pid}, released := k.released + [(pid, sig)])
    else k.(detachFaults := k.detachFaults + 1)
  }

  /** The traced children whose first status has been delivered. */
  function Reported(k: Kernel): set<Pid>
  {
    set pid | pid in k.children && k.children[pid] != Fresh
  }
}
