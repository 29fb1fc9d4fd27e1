/**
 The companion protocol as a transition system (zygiskd/src/zygiskd.rs, zygiskd/src/companion.rs): any number of
 handler threads share one three-valued slot per module under that module's mutex, the accept loop clears slots
 on a zygote restart, and companions accept handed-over descriptors or die at any time.
 Every step is one critical point between which other threads may run.
 */
module CompanionModel {
  import opened Prelude

  type Client = nat

  /** `Mutex<Option<Option<UnixStream>>>`: nothing yet, "no entry", or the daemon end of a companion's socket. */
  datatype Slot = Unset | NoEntry | Conn(id: nat)

  /** `open`: the daemon end exists. `inbox`: descriptors sent and not yet received. */
  datatype Companion = Companion(mod: nat, alive: bool, open: bool, inbox: seq<Client>)

  datatype Stage = Requested | Locked | Checked | Resolved | Answered | Finished

  datatype Fate = Pending | Refused | HandedOver(id: nat) | Accepted(id: nat)

  /** `childReturned`: the forked child failed before `exec` and went on as a second copy of this handler. */
  datatype Handler = Handler(index: nat, stage: Stage, fate: Fate, childReturned: bool, replies: Bytes)

  /** How `spawn_companion` can end. */
  datatype Outcome = ForkFailed | ChildReturned | BadHandshake | AnsweredNoEntry | Started

  datatype Entry =
    | Spawned(mod: nat, outcome: Outcome)
    | CrashDetected(mod: nat)
    | Cleared(mod: nat, hadConn: bool)

  datatype AcceptLoop = Idle | Clearing(next: nat)

  datatype State = State(
    slots: seq<Slot>, locks: seq<Option<Client>>, companions: seq<Companion>, clients: map<Client, Handler>,
    accept: AcceptLoop, log: seq<Entry>)

  datatype Event =
    | Accept(client: Client, index: nat)
    | Lock(client: Client)
    | Check(client: Client)
    | Spawn(client: Client, outcome: Outcome)
    | Reply(client: Client, sent: bool)
    | Unlock(client: Client)
    | Receive(id: nat)
    | Crash(id: nat)
    | RestartBegins
    | RestartClears
    | RestartEnds

  function Initial(modules: nat): State
  {
    State(seq(modules, _ => Unset), seq(modules, _ => None), [], map[], Idle, [])
  }

  predicate WellSized(s: State)
  {
    |s.locks| == |s.slots|
  }

  predicate At(s: State, c: Client, stage: Stage)
  {
    c in s.clients && s.clients[c].stage == stage && s.clients[c].index < |s.slots|
  }

  /** The companion at the other end of the module's socket, if there is one, is still there. */
  predicate PeerAlive(s: State, m: nat)
    requires m < |s.slots|
  {
    s.slots[m].Conn? && s.slots[m].id < |s.companions| && s.companions[s.slots[m].id].alive
  }

  predicate Enabled(s: State, e: Event)
    requires WellSized(s)
  {
    match e
    case Accept(c, _) => s.accept == Idle && c !in s.clients
    case Lock(c) => At(s, c, Requested) && s.locks[s.clients[c].index] == None
    case Check(c) => At(s, c, Locked)
    case Spawn(c, _) => At(s, c, Checked)
    case Reply(c, sent) => At(s, c, Resolved) && (sent ==> PeerAlive(s, s.clients[c].index))
    case Unlock(c) => At(s, c, Answered)
    case Receive(id) => id < |s.companions| && s.companions[id].alive && s.companions[id].inbox != []
    case Crash(id) => id < |s.companions| && s.companions[id].alive
    case RestartBegins => s.accept == Idle
    case RestartClears => s.accept.Clearing? && s.accept.next < |s.slots| && s.locks[s.accept.next] == None
    case RestartEnds => s.accept == Clearing(|s.slots|)
  }

  function Advance(s: State, c: Client, stage: Stage): State
    requires c in s.clients
  {
    s.(clients := s.clients[c := s.clients[c].(stage := stage)])
  }

  /** Dropping the stream in slot `m` closes the daemon end; the slot becomes `None`. */
  function TakeSlot(s: State, m: nat): State
    requires m < |s.slots|
  {
    var companions :=
      if s.slots[m].Conn? && s.slots[m].id < |s.companions|
      then s.companions[s.slots[m].id := s.companions[s.slots[m].id].(open := false)]
      else s.companions;
    s.(slots := s.slots[m := Unset], companions := companions)
  }

  function OnCheck(s: State, c: Client): State
    requires At(s, c, Locked)
  {
    var m := s.clients[c].index;
    var t := if s.slots[m].Conn? && !PeerAlive(s, m) then TakeSlot(s, m).(log := s.log + [CrashDetected(m)]) else s;
    Advance(t, c, Checked)
  }

  function OnSpawn(s: State, c: Client, outcome: Outcome): State
    requires At(s, c, Checked)
  {
    var h := s.clients[c];
    var m := h.index;
    if s.slots[m] != Unset then Advance(s, c, Resolved)
    else
      var t := Advance(s, c, Resolved).(log := s.log + [Spawned(m, outcome)]);
      match outcome
      case ForkFailed => t
      case BadHandshake => t
      case ChildReturned =>
        t.(clients := s.clients[c := h.(stage := Resolved, childReturned := true, replies := h.replies + [0])])
      case AnsweredNoEntry => t.(slots := s.slots[m := NoEntry])
      case Started =>
        t.(slots := s.slots[m := Conn(|s.companions|)], companions := s.companions + [Companion(m, true, true, [])])
  }

  function OnReply(s: State, c: Client, sent: bool): State
    requires At(s, c, Resolved) && (sent ==> PeerAlive(s, s.clients[c].index))
  {
    var h := s.clients[c];
    if sent then
      var id := s.slots[h.index].id;
      var k := s.companions[id];
      s.(clients := s.clients[c := h.(stage := Answered, fate := HandedOver(id))],
         companions := s.companions[id := k.(inbox := k.inbox + [c])])
    else s.(clients := s.clients[c := h.(stage := Answered, fate := Refused, replies := h.replies + [0])])
  }

  /** The companion takes the oldest descriptor and writes 1 to it. */
  function OnReceive(s: State, id: nat): State
    requires id < |s.companions| && s.companions[id].inbox != []
  {
    var k := s.companions[id];
    var c := k.inbox[0];
    var t := s.(companions := s.companions[id := k.(inbox := k.inbox[1..])]);
    if c in s.clients then
      var h := s.clients[c];
      t.(clients := s.clients[c := h.(fate := Accepted(id), replies := h.replies + [1])])
    else t
  }

  function Step(s: State, e: Event): State
    requires WellSized(s) && Enabled(s, e)
  {
    match e
    case Accept(c, index) =>
      var stage := if index < |s.slots| then Requested else Finished;
      s.(clients := s.clients[c := Handler(index, stage, Pending, false, [])])
    case Lock(c) => Advance(s, c, Locked).(locks := s.locks[s.clients[c].index := Some(c)])
    case Check(c) => OnCheck(s, c)
    case Spawn(c, outcome) => OnSpawn(s, c, outcome)
    case Reply(c, sent) => OnReply(s, c, sent)
    case Unlock(c) => Advance(s, c, Finished).(locks := s.locks[s.clients[c].index := None])
    case Receive(id) => OnReceive(s, id)
    case Crash(id) => s.(companions := s.companions[id := s.companions[id].(alive := false, inbox := [])])
    case RestartBegins => s.(accept := Clearing(0))
    case RestartClears =>
      var m := s.accept.next;
      TakeSlot(s, m).(accept := Clearing(m + 1), log := s.log + [Cleared(m, s.slots[m].Conn?)])
    case RestartEnds => s.(accept := Idle)
  }

  predicate Feasible(s: State, events: seq<Event>)
    decreases |events|
  {
    events == [] ||
    (WellSized(s) && Enabled(s, events[0]) && Feasible(Step(s, events[0]), events[1..]))
  }

  function Run(s: State, events: seq<Event>): State
    requires Feasible(s, events)
    decreases |events|
  {
    if events == [] then s else Run(Step(s, events[0]), events[1..])
  }

  lemma RunFrom(s: State, e: Event, rest: seq<Event>)
    requires WellSized(s) && Enabled(s, e) && Feasible(Step(s, e), rest)
    ensures Feasible(s, [e] + rest) && Run(s, [e] + rest) == Run(Step(s, e), rest)
  {
    assert ([e] + rest)[1..] == rest;
  }

  /** The critical section of one request up to the point where the slot is settled. */
  function Settled(s: State, c: Client, outcome: Outcome): (t: State)
    requires WellSized(s) && Enabled(s, Lock(c))
    ensures WellSized(t) && At(t, c, Resolved)
  {
    var s1 := Step(s, Lock(c));
    var s2 := Step(s1, Check(c));
    Step(s2, Spawn(c, outcome))
  }

  /** The whole critical section. */
  function RequestEvents(c: Client, outcome: Outcome, sent: bool): seq<Event>
  {
    [Lock(c), Check(c), Spawn(c, outcome), Reply(c, sent), Unlock(c)]
  }

  lemma SettlingRuns(s: State, c: Client, outcome: Outcome, rest: seq<Event>)
    requires WellSized(s) && Enabled(s, Lock(c)) && Feasible(Settled(s, c, outcome), rest)
    ensures Feasible(s, [Lock(c), Check(c), Spawn(c, outcome)] + rest)
    ensures Run(s, [Lock(c), Check(c), Spawn(c, outcome)] + rest) == Run(Settled(s, c, outcome), rest)
  {
    var s1 := Step(s, Lock(c));
    var s2 := Step(s1, Check(c));
    RunFrom(s2, Spawn(c, outcome), rest);
    RunFrom(s1, Check(c), [Spawn(c, outcome)] + rest);
    RunFrom(s, Lock(c), [Check(c)] + ([Spawn(c, outcome)] + rest));
    assert [Lock(c)] + ([Check(c)] + ([Spawn(c, outcome)] + rest)) == [Lock(c), Check(c), Spawn(c, outcome)] + rest;
  }

  /** The rest of the critical section. */
  function Answering(s: State, c: Client, sent: bool): (t: State)
    requires WellSized(s) && Enabled(s, Reply(c, sent))
    ensures WellSized(Step(s, Reply(c, sent))) && Enabled(Step(s, Reply(c, sent)), Unlock(c))
  {
    Step(Step(s, Reply(c, sent)), Unlock(c))
  }

  lemma AnsweringRuns(s: State, c: Client, sent: bool)
    requires WellSized(s) && Enabled(s, Reply(c, sent))
    ensures Feasible(s, [Reply(c, sent), Unlock(c)])
    ensures Run(s, [Reply(c, sent), Unlock(c)]) == Answering(s, c, sent)
  {
    var t := Answering(s, c, sent);
    RunFrom(Step(s, Reply(c, sent)), Unlock(c), []);
    RunFrom(s, Reply(c, sent), [Unlock(c)]);
  }

  lemma RequestRuns(s: State, c: Client, outcome: Outcome, sent: bool)
    requires WellSized(s) && Enabled(s, Lock(c)) && Enabled(Settled(s, c, outcome), Reply(c, sent))
    ensures Feasible(s, RequestEvents(c, outcome, sent))
    ensures Run(s, RequestEvents(c, outcome, sent)) == Answering(Settled(s, c, outcome), c, sent)
  {
    AnsweringRuns(Settled(s, c, outcome), c, sent);
    SettlingRuns(s, c, outcome, [Reply(c, sent), Unlock(c)]);
    assert RequestEvents(c, outcome, sent) == [Lock(c), Check(c), Spawn(c, outcome)] + [Reply(c, sent), Unlock(c)];
  }

  /** `ConnectCompanion` returns the descriptor exactly when the first byte it reads is 1; end of stream reads as 0. */
  predicate ConnectSucceeds(h: Handler)
  {
    h.replies != [] && h.replies[0] == 1
  }
}
