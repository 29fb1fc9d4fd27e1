/** What holds in every interleaving of the companion protocol. */
module CompanionProofs {
  import opened Prelude
  import opened CompanionModel

  predicate Holding(stage: Stage)
  {
    stage == Locked || stage == Checked || stage == Resolved || stage == Answered
  }

  /** A mutex is held by exactly the handler that is inside its critical section. */
  ghost predicate LockInv(s: State)
  {
    && WellSized(s)
    && (forall c :: c in s.clients && Holding(s.clients[c].stage) ==>
          s.clients[c].index < |s.slots| && s.locks[s.clients[c].index] == Some(c))
  }

  /** A daemon end is open exactly if its companion is the one in the module's slot. */
  ghost predicate SlotInv(s: State)
  {
    && (forall m :: 0 <= m < |s.slots| && s.slots[m].Conn? ==>
          s.slots[m].id < |s.companions| && s.companions[s.slots[m].id].mod == m && s.companions[s.slots[m].id].open)
    && (forall id :: 0 <= id < |s.companions| && s.companions[id].open ==>
          s.companions[id].mod < |s.slots| && s.slots[s.companions[id].mod] == Conn(id))
  }

  function RepliesFor(h: Handler): Bytes
  {
    (if h.childReturned then [0] else []) +
    match h.fate
    case Pending => []
    case Refused => [0]
    case HandedOver(_) => []
    case Accepted(_) => [1]
  }

  /** What was written to the client follows from its fate; a handed-over client never saw a returned child. */
  ghost predicate HandlerInv(s: State, h: Handler)
  {
    && h.replies == RepliesFor(h)
    && (h.childReturned ==> h.fate == Pending || h.fate == Refused)
    && (h.fate != Pending ==> h.stage == Answered || h.stage == Finished)
    && (h.childReturned && h.stage == Resolved ==> h.index < |s.slots| && s.slots[h.index] == Unset)
    && (h.childReturned ==> h.stage == Resolved || h.stage == Answered || h.stage == Finished)
    && (h.fate.Accepted? ==> h.fate.id < |s.companions|)
  }

  ghost predicate ClientInv(s: State)
  {
    forall c :: c in s.clients ==> HandlerInv(s, s.clients[c])
  }

  /** A descriptor waits in at most one place of one inbox, that of the companion it was handed to. */
  ghost predicate InboxInv(s: State)
  {
    && (forall id, i :: 0 <= id < |s.companions| && 0 <= i < |s.companions[id].inbox| ==>
          s.companions[id].inbox[i] in s.clients && s.clients[s.companions[id].inbox[i]].fate == HandedOver(id))
    && (forall id, i, j :: 0 <= id < |s.companions| && 0 <= i < j < |s.companions[id].inbox| ==>
          s.companions[id].inbox[i] != s.companions[id].inbox[j])
  }

  // ------------------------------------------------------------ spawn history

  function Starts(log: seq<Entry>, m: nat): nat
  {
    if log == [] then 0
    else Starts(log[..|log| - 1], m) + if log[|log| - 1] == Spawned(m, Started) then 1 else 0
  }

  function Crashes(log: seq<Entry>, m: nat): nat
  {
    if log == [] then 0
    else Crashes(log[..|log| - 1], m) + if log[|log| - 1] == CrashDetected(m) then 1 else 0
  }

  function Restarts(log: seq<Entry>, m: nat, hadConn: bool): nat
  {
    if log == [] then 0
    else Restarts(log[..|log| - 1], m, hadConn) + if log[|log| - 1] == Cleared(m, hadConn) then 1 else 0
  }

  /** The module answered "no entry" and no restart has happened since. */
  predicate Barred(log: seq<Entry>, m: nat)
  {
    log != [] &&
    match log[|log| - 1]
    case Spawned(m', AnsweredNoEntry) => m' == m || Barred(log[..|log| - 1], m)
    case Cleared(m', _) => m' != m && Barred(log[..|log| - 1], m)
    case _ => Barred(log[..|log| - 1], m)
  }

  /** No spawn was ever attempted for a barred module. */
  predicate NeverRespawned(log: seq<Entry>)
  {
    log == [] ||
    (var before := log[..|log| - 1];
     var e := log[|log| - 1];
     NeverRespawned(before) && (e.Spawned? ==> !Barred(before, e.mod)))
  }

  /** Companions started are accounted for: in the slot, found crashed, or dropped by a restart. */
  ghost predicate HistoryInv(s: State)
  {
    && NeverRespawned(s.log)
    && (forall m :: 0 <= m < |s.slots| ==>
          && (Barred(s.log, m) <==> s.slots[m] == NoEntry)
          && Starts(s.log, m) == Crashes(s.log, m) + Restarts(s.log, m, true) + if s.slots[m].Conn? then 1 else 0)
  }

  ghost predicate CoreInv(s: State)
  {
    LockInv(s) && SlotInv(s) && ClientInv(s) && InboxInv(s) && HistoryInv(s)
  }

  /** The companion a client was handed to. */
  function Target(fate: Fate): Option<nat>
  {
    match fate
    case HandedOver(id) => Some(id)
    case Accepted(id) => Some(id)
    case _ => None
  }

  ghost predicate Routed(s: State, h: Handler)
  {
    Target(h.fate).Some? ==>
      Target(h.fate).value < |s.companions| && s.companions[Target(h.fate).value].mod == h.index
  }

  /** Every client handed over was handed to a companion of the module it asked for. */
  ghost predicate RoutedInv(s: State)
  {
    forall c :: c in s.clients ==> Routed(s, s.clients[c])
  }

  ghost predicate Inv(s: State)
  {
    CoreInv(s) && RoutedInv(s)
  }

  // --------------------------------------------------------------------- steps

  lemma LogGrows(log: seq<Entry>, e: Entry, m: nat)
    ensures Starts(log + [e], m) == Starts(log, m) + if e == Spawned(m, Started) then 1 else 0
    ensures Crashes(log + [e], m) == Crashes(log, m) + if e == CrashDetected(m) then 1 else 0
    ensures Restarts(log + [e], m, true) == Restarts(log, m, true) + if e == Cleared(m, true) then 1 else 0
    ensures Barred(log + [e], m) <==>
            if e == Spawned(m, AnsweredNoEntry) then true
            else if e.Cleared? && e.mod == m then false
            else Barred(log, m)
    ensures NeverRespawned(log + [e]) <==> NeverRespawned(log) && (e.Spawned? ==> !Barred(log, e.mod))
  {
    assert (log + [e])[..|log|] == log;
  }

  /** The history after entry `e` about module `m` agrees with the slots if only slot `m` changed, and as `e` says. */
  lemma HistoryStep(s: State, t: State, e: Entry)
    requires HistoryInv(s) && e.mod < |s.slots|
    requires t.log == s.log + [e] && |t.slots| == |s.slots|
    requires forall m :: 0 <= m < |s.slots| && m != e.mod ==> t.slots[m] == s.slots[m]
    requires match e
             case Spawned(m, outcome) =>
               && s.slots[m] == Unset
               && (match outcome
                   case Started => t.slots[m].Conn?
                   case AnsweredNoEntry => t.slots[m] == NoEntry
                   case _ => t.slots[m] == Unset)
             case CrashDetected(m) => s.slots[m].Conn? && t.slots[m] == Unset
             case Cleared(m, hadConn) => hadConn == s.slots[m].Conn? && t.slots[m] == Unset
    ensures HistoryInv(t)
  {
    LogGrows(s.log, e, e.mod);
    forall m | 0 <= m < |t.slots|
      ensures Barred(t.log, m) <==> t.slots[m] == NoEntry
      ensures Starts(t.log, m) == Crashes(t.log, m) + Restarts(t.log, m, true) + if t.slots[m].Conn? then 1 else 0
    {
      LogGrows(s.log, e, m);
    }
  }

  lemma TakeSlotKeeps(s: State, m: nat)
    requires SlotInv(s) && InboxInv(s) && m < |s.slots|
    ensures SlotInv(TakeSlot(s, m)) && InboxInv(TakeSlot(s, m))
  {
  }

  lemma CheckKeepsClients(s: State, c: Client)
    requires CoreInv(s) && Enabled(s, Check(c))
    ensures LockInv(OnCheck(s, c)) && ClientInv(OnCheck(s, c))
  {
  }

  lemma CheckKeepsInv(s: State, c: Client)
    requires CoreInv(s) && Enabled(s, Check(c))
    ensures CoreInv(OnCheck(s, c))
  {
    var m := s.clients[c].index;
    var t := OnCheck(s, c);
    CheckKeepsClients(s, c);
    if s.slots[m].Conn? && !PeerAlive(s, m) {
      TakeSlotKeeps(s, m);
      SlotsKept(TakeSlot(s, m), t);
      HistoryStep(s, t, CrashDetected(m));
    } else {
      SlotsKept(s, t);
    }
  }

  lemma SpawnKeepsLocks(s: State, c: Client, outcome: Outcome)
    requires LockInv(s) && Enabled(s, Spawn(c, outcome))
    ensures LockInv(OnSpawn(s, c, outcome))
  {
  }

  lemma SpawnKeepsClients(s: State, c: Client, outcome: Outcome)
    requires LockInv(s) && ClientInv(s) && Enabled(s, Spawn(c, outcome))
    ensures ClientInv(OnSpawn(s, c, outcome))
  {
    var t := OnSpawn(s, c, outcome);
    assert HandlerInv(s, s.clients[c]);
    assert HandlerInv(t, t.clients[c]);
    forall d | d in t.clients && d != c
      ensures HandlerInv(t, t.clients[d])
    {
      assert HandlerInv(s, s.clients[d]);
      assert Holding(s.clients[c].stage);
    }
  }

  lemma StartedKeepsSlots(s: State, m: nat)
    requires SlotInv(s) && m < |s.slots| && s.slots[m] == Unset
    ensures SlotInv(
              s.(slots := s.slots[m := Conn(|s.companions|)],
                 companions := s.companions + [Companion(m, true, true, [])]))
  {
  }

  lemma StartedKeepsInboxes(s: State, m: nat, k: Companion)
    requires InboxInv(s) && m < |s.slots| && k.inbox == []
    ensures InboxInv(s.(slots := s.slots[m := Conn(|s.companions|)], companions := s.companions + [k]))
  {
  }

  /** Slots and inboxes depend on nothing but the slots, the companions and the fates. */
  lemma SlotsKept(s: State, t: State)
    requires SlotInv(s) && InboxInv(s)
    requires t.companions == s.companions && |t.slots| == |s.slots|
    requires forall m :: 0 <= m < |s.slots| ==> t.slots[m] == s.slots[m] || (!t.slots[m].Conn? && !s.slots[m].Conn?)
    requires s.clients.Keys <= t.clients.Keys && forall c :: c in s.clients ==> t.clients[c].fate == s.clients[c].fate
    ensures SlotInv(t) && InboxInv(t)
  {
  }

  lemma SpawnKeepsSlots(s: State, c: Client, outcome: Outcome)
    requires CoreInv(s) && Enabled(s, Spawn(c, outcome))
    ensures SlotInv(OnSpawn(s, c, outcome)) && InboxInv(OnSpawn(s, c, outcome))
  {
    var m := s.clients[c].index;
    var t := OnSpawn(s, c, outcome);
    if s.slots[m] == Unset && outcome == Started {
      var k := Companion(m, true, true, []);
      var added := s.(slots := s.slots[m := Conn(|s.companions|)], companions := s.companions + [k]);
      StartedKeepsSlots(s, m);
      StartedKeepsInboxes(s, m, k);
      SlotsKept(added, t);
    } else {
      SlotsKept(s, t);
    }
  }

  lemma SpawnKeepsInv(s: State, c: Client, outcome: Outcome)
    requires CoreInv(s) && Enabled(s, Spawn(c, outcome))
    ensures CoreInv(OnSpawn(s, c, outcome))
  {
    var m := s.clients[c].index;
    var t := OnSpawn(s, c, outcome);
    SpawnKeepsLocks(s, c, outcome);
    SpawnKeepsClients(s, c, outcome);
    SpawnKeepsSlots(s, c, outcome);
    if s.slots[m] == Unset {
      HistoryStep(s, t, Spawned(m, outcome));
    }
  }

  lemma ReplyKeepsClients(s: State, c: Client, sent: bool)
    requires LockInv(s) && SlotInv(s) && ClientInv(s) && Enabled(s, Reply(c, sent))
    ensures LockInv(OnReply(s, c, sent)) && ClientInv(OnReply(s, c, sent))
  {
    var t := OnReply(s, c, sent);
    assert HandlerInv(s, s.clients[c]);
    assert HandlerInv(t, t.clients[c]);
    forall d | d in t.clients && d != c
      ensures HandlerInv(t, t.clients[d])
    {
      assert HandlerInv(s, s.clients[d]);
    }
  }

  lemma ReplyKeepsInboxes(s: State, c: Client, sent: bool)
    requires WellSized(s) && ClientInv(s) && InboxInv(s) && Enabled(s, Reply(c, sent))
    ensures InboxInv(OnReply(s, c, sent))
  {
    assert HandlerInv(s, s.clients[c]);
    assert s.clients[c].fate == Pending;
  }

  lemma ReplyKeepsSlots(s: State, c: Client, sent: bool)
    requires WellSized(s) && SlotInv(s) && HistoryInv(s) && Enabled(s, Reply(c, sent))
    ensures SlotInv(OnReply(s, c, sent)) && HistoryInv(OnReply(s, c, sent))
  {
  }

  lemma ReplyKeepsInv(s: State, c: Client, sent: bool)
    requires CoreInv(s) && Enabled(s, Reply(c, sent))
    ensures CoreInv(OnReply(s, c, sent))
  {
    ReplyKeepsClients(s, c, sent);
    ReplyKeepsInboxes(s, c, sent);
    ReplyKeepsSlots(s, c, sent);
  }

  lemma ReceiveKeepsInv(s: State, id: nat)
    requires CoreInv(s) && Enabled(s, Receive(id))
    ensures CoreInv(OnReceive(s, id))
  {
    var c := s.companions[id].inbox[0];
    var t := OnReceive(s, id);
    assert s.clients[c].fate == HandedOver(id);
  }

  lemma RestartKeepsClients(s: State)
    requires LockInv(s) && ClientInv(s) && Enabled(s, RestartClears)
    ensures LockInv(Step(s, RestartClears)) && ClientInv(Step(s, RestartClears))
  {
    var t := Step(s, RestartClears);
    forall c | c in t.clients
      ensures HandlerInv(t, t.clients[c])
    {
      assert HandlerInv(s, s.clients[c]);
    }
  }

  lemma RestartKeepsInv(s: State)
    requires CoreInv(s) && Enabled(s, RestartClears)
    ensures CoreInv(Step(s, RestartClears))
  {
    var m := s.accept.next;
    var t := Step(s, RestartClears);
    RestartKeepsClients(s);
    TakeSlotKeeps(s, m);
    SlotsKept(TakeSlot(s, m), t);
    HistoryStep(s, t, Cleared(m, s.slots[m].Conn?));
  }

  lemma LockingKeepsInv(s: State, e: Event)
    requires CoreInv(s) && Enabled(s, e)
    requires e.Lock? || e.Unlock?
    ensures CoreInv(Step(s, e))
  {
    LockingKeepsClients(s, e);
    SlotsKept(s, Step(s, e));
  }

  lemma LockingKeepsClients(s: State, e: Event)
    requires LockInv(s) && ClientInv(s) && Enabled(s, e)
    requires e.Lock? || e.Unlock?
    ensures LockInv(Step(s, e)) && ClientInv(Step(s, e))
  {
    var t := Step(s, e);
    forall d | d in t.clients
      ensures HandlerInv(t, t.clients[d])
    {
      assert HandlerInv(s, s.clients[d]);
    }
  }

  lemma ArrivalKeepsInv(s: State, e: Event)
    requires CoreInv(s) && Enabled(s, e)
    requires e.Accept? || e.RestartBegins? || e.RestartEnds?
    ensures CoreInv(Step(s, e))
  {
  }

  lemma CrashKeepsInv(s: State, id: nat)
    requires CoreInv(s) && Enabled(s, Crash(id))
    ensures CoreInv(Step(s, Crash(id)))
  {
  }

  lemma StepKeepsCore(s: State, e: Event)
    requires CoreInv(s) && Enabled(s, e)
    ensures CoreInv(Step(s, e))
  {
    match e
    case Check(c) => CheckKeepsInv(s, c);
    case Spawn(c, outcome) => SpawnKeepsInv(s, c, outcome);
    case Reply(c, sent) => ReplyKeepsInv(s, c, sent);
    case Receive(id) => ReceiveKeepsInv(s, id);
    case RestartClears => RestartKeepsInv(s);
    case Crash(id) => CrashKeepsInv(s, id);
    case Lock(_) => LockingKeepsInv(s, e);
    case Unlock(_) => LockingKeepsInv(s, e);
    case _ => ArrivalKeepsInv(s, e);
  }

  // -------------------------------------------------------------------- routing

  /** Companions keep their module, and no client gets a new target. */
  lemma RoutedKept(s: State, t: State)
    requires RoutedInv(s) && |s.companions| <= |t.companions|
    requires forall id :: 0 <= id < |s.companions| ==> t.companions[id].mod == s.companions[id].mod
    requires forall c :: c in t.clients && Target(t.clients[c].fate).Some? ==>
               && c in s.clients && t.clients[c].index == s.clients[c].index
               && Target(t.clients[c].fate) == Target(s.clients[c].fate)
    ensures RoutedInv(t)
  {
    forall c | c in t.clients && Target(t.clients[c].fate).Some?
      ensures Routed(t, t.clients[c])
    {
      assert Routed(s, s.clients[c]);
    }
  }

  lemma ReplyKeepsRouted(s: State, c: Client, sent: bool)
    requires RoutedInv(s) && SlotInv(s) && At(s, c, Resolved) && (sent ==> PeerAlive(s, s.clients[c].index))
    ensures RoutedInv(OnReply(s, c, sent))
  {
    var t := OnReply(s, c, sent);
    assert Routed(t, t.clients[c]);
    forall d | d in t.clients && d != c
      ensures Routed(t, t.clients[d])
    {
      assert Routed(s, s.clients[d]);
    }
  }

  lemma ReceiveKeepsRouted(s: State, id: nat)
    requires RoutedInv(s) && InboxInv(s) && id < |s.companions| && s.companions[id].inbox != []
    ensures RoutedInv(OnReceive(s, id))
  {
    assert s.clients[s.companions[id].inbox[0]].fate == HandedOver(id);
    RoutedKept(s, OnReceive(s, id));
  }

  lemma TakeSlotKeepsRouted(s: State, m: nat)
    requires RoutedInv(s) && m < |s.slots|
    ensures RoutedInv(TakeSlot(s, m))
  {
    RoutedKept(s, TakeSlot(s, m));
  }

  lemma CheckKeepsRouted(s: State, c: Client)
    requires RoutedInv(s) && At(s, c, Locked)
    ensures RoutedInv(OnCheck(s, c))
  {
    TakeSlotKeepsRouted(s, s.clients[c].index);
    RoutedKept(s, OnCheck(s, c));
  }

  lemma SpawnKeepsRouted(s: State, c: Client, outcome: Outcome)
    requires RoutedInv(s) && At(s, c, Checked)
    ensures RoutedInv(OnSpawn(s, c, outcome))
  {
    RoutedKept(s, OnSpawn(s, c, outcome));
  }

  lemma OtherStepKeepsRouted(s: State, e: Event)
    requires WellSized(s) && RoutedInv(s) && Enabled(s, e)
    requires !e.Reply? && !e.Receive? && !e.Check? && !e.Spawn? && !e.RestartClears?
    ensures RoutedInv(Step(s, e))
  {
    RoutedKept(s, Step(s, e));
  }

  lemma StepKeepsRouted(s: State, e: Event)
    requires CoreInv(s) && RoutedInv(s) && Enabled(s, e)
    ensures RoutedInv(Step(s, e))
  {
    match e
    case Check(c) => CheckKeepsRouted(s, c);
    case Spawn(c, outcome) => SpawnKeepsRouted(s, c, outcome);
    case Reply(c, sent) => ReplyKeepsRouted(s, c, sent);
    case Receive(id) => ReceiveKeepsRouted(s, id);
    case RestartClears =>
      TakeSlotKeepsRouted(s, s.accept.next);
      RoutedKept(TakeSlot(s, s.accept.next), Step(s, e));
    case _ => OtherStepKeepsRouted(s, e);
  }

  lemma StepKeepsInv(s: State, e: Event)
    requires Inv(s) && Enabled(s, e)
    ensures Inv(Step(s, e))
  {
    StepKeepsCore(s, e);
    StepKeepsRouted(s, e);
  }

  lemma {:induction false} RunKeepsInv(s: State, events: seq<Event>)
    requires Inv(s) && Feasible(s, events)
    ensures Inv(Run(s, events))
    decreases |events|
  {
    if events == [] {
      assert Run(s, events) == s;
    } else {
      StepKeepsInv(s, events[0]);
      RunKeepsInv(Step(s, events[0]), events[1..]);
    }
  }

  lemma InitialInv(modules: nat)
    ensures Inv(Initial(modules))
  {
  }

  // ---------------------------------------------------------------------- runs

  /**
   Each module has at most one companion whose daemon end is open, and the companions started are exactly those in the
   slot, those found crashed and those dropped by a restart; so they never exceed one plus the crash
   detections and the restarts.
   */
  ghost predicate SingleCompanions(s: State)
  {
    && (forall i, j :: 0 <= i < |s.companions| && 0 <= j < |s.companions| ==>
          s.companions[i].open && s.companions[j].open && s.companions[i].mod == s.companions[j].mod ==> i == j)
    && (forall m :: 0 <= m < |s.slots| ==>
          && Starts(s.log, m) == Crashes(s.log, m) + Restarts(s.log, m, true) + (if s.slots[m].Conn? then 1 else 0)
          && Starts(s.log, m) <= 1 + Crashes(s.log, m) + Restarts(s.log, m, true) + Restarts(s.log, m, false))
  }

  lemma AtMostOneCompanion(modules: nat, events: seq<Event>)
    requires Feasible(Initial(modules), events)
    ensures SingleCompanions(Run(Initial(modules), events))
  {
    InitialInv(modules);
    RunKeepsInv(Initial(modules), events);
  }

  /** After a "no entry" answer no spawn is attempted for the module until a restart clears it. */
  ghost predicate NoEntryRespected(log: seq<Entry>)
  {
    forall i, j ::
      0 <= i < j < |log| && log[i].Spawned? && log[i].outcome == AnsweredNoEntry ==>
        log[j].Spawned? && log[j].mod == log[i].mod ==>
          exists k :: i < k < j && log[k].Cleared? && log[k].mod == log[i].mod
  }

  lemma NoEntryIsNotRespawned(modules: nat, events: seq<Event>)
    requires Feasible(Initial(modules), events)
    ensures NoEntryRespected(Run(Initial(modules), events).log)
  {
    InitialInv(modules);
    RunKeepsInv(Initial(modules), events);
    InvRespectsNoEntry(Run(Initial(modules), events));
  }

  lemma InvRespectsNoEntry(s: State)
    requires Inv(s)
    ensures NoEntryRespected(s.log)
  {
    forall i, j | 0 <= i < j < |s.log| && s.log[i].Spawned? && s.log[i].outcome == AnsweredNoEntry &&
                  s.log[j].Spawned? && s.log[j].mod == s.log[i].mod
      ensures exists k :: i < k < j && s.log[k].Cleared? && s.log[k].mod == s.log[i].mod
    {
      RespawnNeedsClear(s.log, i, j);
    }
  }

  lemma {:induction false} RespawnNeedsClear(log: seq<Entry>, i: nat, j: nat)
    requires NeverRespawned(log)
    requires i < j < |log| && log[i].Spawned? && log[i].outcome == AnsweredNoEntry
    requires log[j].Spawned? && log[j].mod == log[i].mod
    ensures exists k :: i < k < j && log[k].Cleared? && log[k].mod == log[i].mod
  {
    var n := |log| - 1;
    var before := log[..n];
    if j < n {
      RespawnNeedsClear(before, i, j);
      var k :| i < k < j && before[k].Cleared? && before[k].mod == before[i].mod;
      assert log[k].Cleared?;
    } else if forall k :: i < k < j ==> !(log[k].Cleared? && log[k].mod == log[i].mod) {
      StaysBarred(before, i);
      assert false;
    }
  }

  lemma {:induction false} StaysBarred(log: seq<Entry>, i: nat)
    requires i < |log| && log[i].Spawned? && log[i].outcome == AnsweredNoEntry
    requires forall k :: i < k < |log| ==> !(log[k].Cleared? && log[k].mod == log[i].mod)
    ensures Barred(log, log[i].mod)
  {
    var n := |log| - 1;
    if i < n {
      var before := log[..n];
      assert before[i] == log[i];
      StaysBarred(before, i);
    }
  }

  /**
   A client is written nothing, a single 1 by the one companion that accepted its descriptor, or zeros by the daemon
   when the descriptor was not handed over; it gets more than one byte exactly if the forked child returned into
   the handler and the request was then refused. `ConnectCompanion` returns the descriptor exactly if a
   companion accepted it.
   */
  ghost predicate RepliesExclusive(h: Handler)
  {
    && (h.replies == [] || h.replies == [1] || h.replies == [0] || h.replies == [0, 0])
    && (|h.replies| > 1 <==> h.childReturned && h.fate == Refused)
    && (h.replies == [1] <==> h.fate.Accepted?)
    && (0 in h.replies ==> h.fate == Refused || h.childReturned)
    && (h.fate.HandedOver? ==> h.replies == [])
    && (ConnectSucceeds(h) <==> h.fate.Accepted?)
  }

  lemma ClientRepliesAreExclusive(modules: nat, events: seq<Event>, c: Client)
    requires Feasible(Initial(modules), events) && c in Run(Initial(modules), events).clients
    ensures RepliesExclusive(Run(Initial(modules), events).clients[c])
  {
    InitialInv(modules);
    RunKeepsInv(Initial(modules), events);
    InvKeepsRepliesExclusive(Run(Initial(modules), events), c);
  }

  lemma InvKeepsRepliesExclusive(s: State, c: Client)
    requires Inv(s) && c in s.clients
    ensures RepliesExclusive(s.clients[c])
  {
    assert HandlerInv(s, s.clients[c]);
    RepliesByFate(s.clients[c]);
  }

  lemma RepliesByFate(h: Handler)
    requires h.childReturned ==> h.fate == Pending || h.fate == Refused
    ensures RepliesFor(h) ==
            match h.fate
            case Pending => if h.childReturned then [0] else []
            case Refused => if h.childReturned then [0, 0] else [0]
            case HandedOver(_) => []
            case Accepted(_) => [1]
  {
  }

  // ------------------------------------------------------------------ right module

  ghost predicate AskedFor(events: seq<Event>, c: Client, index: nat)
  {
    exists i :: 0 <= i < |events| && events[i] == Accept(c, index)
  }

  lemma StepKeepsIndex(s: State, e: Event, c: Client)
    requires WellSized(s) && Enabled(s, e) && c in Step(s, e).clients
    ensures if c in s.clients then Step(s, e).clients[c].index == s.clients[c].index
            else e == Accept(c, Step(s, e).clients[c].index)
  {
  }

  lemma {:induction false} IndexWasAskedFor(s: State, events: seq<Event>, c: Client)
    requires Feasible(s, events) && c in Run(s, events).clients
    ensures if c in s.clients then Run(s, events).clients[c].index == s.clients[c].index
            else AskedFor(events, c, Run(s, events).clients[c].index)
    decreases |events|
  {
    if events == [] {
      assert Run(s, events) == s;
    } else {
      var t, rest := Step(s, events[0]), events[1..];
      IndexWasAskedFor(t, rest, c);
      if c in t.clients {
        StepKeepsIndex(s, events[0], c);
        assert c !in s.clients ==> events[0] == Accept(c, t.clients[c].index);
      } else {
        ClientsStay(s, events[0], c);
        var i :| 0 <= i < |rest| && rest[i] == Accept(c, Run(t, rest).clients[c].index);
        assert events[i + 1] == rest[i];
      }
    }
  }

  lemma ClientsStay(s: State, e: Event, c: Client)
    requires WellSized(s) && Enabled(s, e)
    ensures c in s.clients ==> c in Step(s, e).clients
  {
  }

  /** In every interleaving a client that was handed over is at a companion of the module its request named. */
  lemma RightCompanion(modules: nat, events: seq<Event>, c: Client)
    requires Feasible(Initial(modules), events) && c in Run(Initial(modules), events).clients
    ensures
      var s := Run(Initial(modules), events);
      var h := s.clients[c];
      && AskedFor(events, c, h.index)
      && (Target(h.fate).Some? ==>
            Target(h.fate).value < |s.companions| && s.companions[Target(h.fate).value].mod == h.index)
  {
    InitialInv(modules);
    RunKeepsInv(Initial(modules), events);
    IndexWasAskedFor(Initial(modules), events, c);
    assert Routed(Run(Initial(modules), events), Run(Initial(modules), events).clients[c]);
  }

  // -------------------------------------------------------------- one undisturbed request

  /** The slot has no companion to hand the client to. */
  predicate Vacant(s: State, m: nat)
    requires m < |s.slots|
  {
    s.slots[m] == Unset || (s.slots[m].Conn? && !PeerAlive(s, m))
  }

  /**
   What a request does, in terms of the slot before it. A slot without a live companion is filled as the spawn turns
   out, and a new companion is the last one and alive; a live companion or "no entry" stays, and nothing is spawned. The
   client waits last at the companion in the slot if sending works, and is refused otherwise. No other slot changes.
   */
  ghost predicate RequestOutcome(s: State, t: State, c: Client, outcome: Outcome, sendWorks: bool, sent: bool)
    requires c in s.clients && s.clients[c].index < |s.slots| && |t.slots| == |s.slots| && c in t.clients
  {
    var m := s.clients[c].index;
    var spawned := Vacant(s, m) && outcome == Started;
    && (forall k :: 0 <= k < |s.slots| && k != m ==> t.slots[k] == s.slots[k])
    && t.slots[m] == (if !Vacant(s, m) then s.slots[m]
                      else if outcome == Started then Conn(|s.companions|)
                      else if outcome == AnsweredNoEntry then NoEntry
                      else Unset)
    && |t.companions| == |s.companions| + (if spawned then 1 else 0)
    && (spawned ==> t.companions[|s.companions|] == Companion(m, true, true, if sent then [c] else []))
    && (forall id :: 0 <= id < |s.companions| ==>
          t.companions[id] == if s.slots[m] != Conn(id) then s.companions[id]
                              else if Vacant(s, m) then s.companions[id].(open := false)
                              else if sent then s.companions[id].(inbox := s.companions[id].inbox + [c])
                              else s.companions[id])
    && (sent <==> sendWorks && (spawned || PeerAlive(s, m)))
    && t.clients[c].stage == Finished
    && t.clients[c].fate == (if sent then HandedOver(if spawned then |s.companions| else s.slots[m].id) else Refused)
    && Starts(t.log, m) == Starts(s.log, m) + (if spawned then 1 else 0)
    && Crashes(t.log, m) == Crashes(s.log, m) + (if s.slots[m].Conn? && Vacant(s, m) then 1 else 0)
  }

  /** The slot once it is settled. */
  ghost predicate SettleOutcome(s: State, t: State, c: Client, outcome: Outcome)
    requires c in s.clients && s.clients[c].index < |s.slots| && |t.slots| == |s.slots|
  {
    var m := s.clients[c].index;
    var spawned := Vacant(s, m) && outcome == Started;
    && c in t.clients && t.clients[c].index == m
    && (forall k :: 0 <= k < |s.slots| && k != m ==> t.slots[k] == s.slots[k])
    && t.slots[m] == (if !Vacant(s, m) then s.slots[m]
                      else if outcome == Started then Conn(|s.companions|)
                      else if outcome == AnsweredNoEntry then NoEntry
                      else Unset)
    && |t.companions| == |s.companions| + (if spawned then 1 else 0)
    && (spawned ==> t.companions[|s.companions|] == Companion(m, true, true, []))
    && (forall id :: 0 <= id < |s.companions| ==>
          t.companions[id] ==
            if s.slots[m] == Conn(id) && Vacant(s, m) then s.companions[id].(open := false) else s.companions[id])
    && Starts(t.log, m) == Starts(s.log, m) + (if spawned then 1 else 0)
    && Crashes(t.log, m) == Crashes(s.log, m) + (if s.slots[m].Conn? && Vacant(s, m) then 1 else 0)
  }

  /** The slot of `m` is emptied if its companion is gone. */
  ghost predicate PeerChecked(s: State, t: State, m: nat)
    requires m < |s.slots|
  {
    && |t.companions| == |s.companions|
    && t.slots == (if Vacant(s, m) then s.slots[m := Unset] else s.slots)
    && (forall id :: 0 <= id < |s.companions| ==>
          t.companions[id] ==
            if s.slots[m] == Conn(id) && Vacant(s, m) then s.companions[id].(open := false) else s.companions[id])
    && Starts(t.log, m) == Starts(s.log, m)
    && Crashes(t.log, m) == Crashes(s.log, m) + (if s.slots[m].Conn? && Vacant(s, m) then 1 else 0)
  }

  lemma CheckOutcome(s: State, c: Client)
    requires SlotInv(s) && At(s, c, Locked)
    ensures PeerChecked(s, OnCheck(s, c), s.clients[c].index)
  {
    LogGrows(s.log, CrashDetected(s.clients[c].index), s.clients[c].index);
  }

  /** An empty slot is filled as the spawn turns out. */
  ghost predicate SpawnedFor(s: State, t: State, m: nat, outcome: Outcome)
    requires m < |s.slots|
  {
    if s.slots[m] != Unset then t.slots == s.slots && t.companions == s.companions && t.log == s.log
    else
      && t.slots == s.slots[m := if outcome == Started then Conn(|s.companions|)
                                 else if outcome == AnsweredNoEntry then NoEntry
                                 else Unset]
      && t.companions == s.companions + (if outcome == Started then [Companion(m, true, true, [])] else [])
      && Starts(t.log, m) == Starts(s.log, m) + (if outcome == Started then 1 else 0)
      && Crashes(t.log, m) == Crashes(s.log, m)
  }

  lemma SpawnOutcome(s: State, c: Client, outcome: Outcome)
    requires At(s, c, CompanionModel.Checked)
    ensures SpawnedFor(s, OnSpawn(s, c, outcome), s.clients[c].index, outcome)
  {
    LogGrows(s.log, Spawned(s.clients[c].index, outcome), s.clients[c].index);
  }

  lemma SettlesAsSaid(s: State, s2: State, t: State, c: Client, outcome: Outcome)
    requires c in s.clients && s.clients[c].index < |s.slots|
    requires var m := s.clients[c].index; PeerChecked(s, s2, m) && SpawnedFor(s2, t, m, outcome)
    requires c in t.clients && t.clients[c].index == s.clients[c].index
    ensures |t.slots| == |s.slots| && SettleOutcome(s, t, c, outcome)
  {
    var m := s.clients[c].index;
    assert s2.slots[m] == Unset <==> Vacant(s, m);
  }

  lemma SettledOutcome(s: State, c: Client, outcome: Outcome)
    requires SlotInv(s) && WellSized(s) && Enabled(s, Lock(c))
    ensures SettleOutcome(s, Settled(s, c, outcome), c, outcome)
  {
    var s1 := Step(s, Lock(c));
    var s2 := Step(s1, Check(c));
    LockingKeepsSlots(s, c);
    CheckOutcome(s1, c);
    SpawnOutcome(s2, c, outcome);
    SettlesAsSaid(s1, s2, Settled(s, c, outcome), c, outcome);
    SettleFrame(s, s1, Settled(s, c, outcome), c, outcome);
  }

  /** What settles the slot depends on slots, companions and history only. */
  lemma SettleFrame(s: State, s1: State, t: State, c: Client, outcome: Outcome)
    requires s.slots == s1.slots && s.companions == s1.companions && s.log == s1.log
    requires c in s.clients && c in s1.clients && s.clients[c].index == s1.clients[c].index < |s.slots| == |t.slots|
    requires SettleOutcome(s1, t, c, outcome)
    ensures SettleOutcome(s, t, c, outcome)
  {
  }

  lemma LockingKeepsSlots(s: State, c: Client)
    requires SlotInv(s) && WellSized(s) && Enabled(s, Lock(c))
    ensures SlotInv(Step(s, Lock(c)))
  {
  }

  /** The client waits at the companion in the slot, or is refused. */
  ghost predicate Replied(u: State, t: State, c: Client, m: nat, sent: bool)
    requires m < |u.slots|
  {
    && t.slots == u.slots && t.log == u.log && |t.companions| == |u.companions|
    && (sent ==> PeerAlive(u, m))
    && (forall id :: 0 <= id < |u.companions| ==>
          t.companions[id] ==
            if sent && u.slots[m] == Conn(id) then u.companions[id].(inbox := u.companions[id].inbox + [c])
            else u.companions[id])
    && c in t.clients && t.clients[c].stage == Finished
    && t.clients[c].fate == if sent then HandedOver(u.slots[m].id) else Refused
  }

  lemma RepliedAsSaid(u: State, c: Client, sent: bool)
    requires WellSized(u) && At(u, c, Resolved) && Enabled(u, Reply(c, sent))
    ensures Replied(u, Answering(u, c, sent), c, u.clients[c].index, sent)
  {
  }

  lemma OutcomesCombine(s: State, u: State, t: State, c: Client, outcome: Outcome, sendWorks: bool, sent: bool)
    requires SlotInv(s) && c in s.clients && s.clients[c].index < |s.slots| == |u.slots|
    requires SettleOutcome(s, u, c, outcome) && Replied(u, t, c, s.clients[c].index, sent)
    requires sent <==> sendWorks && PeerAlive(u, s.clients[c].index)
    ensures RequestOutcome(s, t, c, outcome, sendWorks, sent)
  {
  }

  lemma RequestOutcomeHolds(s: State, c: Client, outcome: Outcome, sendWorks: bool, sent: bool)
    requires Inv(s) && Enabled(s, Lock(c))
    requires sent <==> sendWorks && PeerAlive(Settled(s, c, outcome), s.clients[c].index)
    requires Enabled(Settled(s, c, outcome), Reply(c, sent))
    ensures
      var t := Answering(Settled(s, c, outcome), c, sent);
      |t.slots| == |s.slots| && c in t.clients && RequestOutcome(s, t, c, outcome, sendWorks, sent)
  {
    var u := Settled(s, c, outcome);
    SettledOutcome(s, c, outcome);
    RepliedAsSaid(u, c, sent);
    OutcomesCombine(s, u, Answering(u, c, sent), c, outcome, sendWorks, sent);
  }

  /** A companion answers the client that has waited longest, which thereby connects. */
  lemma ReceivedIsAccepted(s: State, id: nat)
    requires Inv(s) && Enabled(s, Receive(id))
    ensures
      var c := s.companions[id].inbox[0];
      var t := Step(s, Receive(id));
      && c in t.clients && t.clients[c].fate == Accepted(id)
      && t.clients[c].replies == [1] && ConnectSucceeds(t.clients[c])
      && |t.companions| == |s.companions| && t.companions[id].inbox == s.companions[id].inbox[1..]
  {
    var c := s.companions[id].inbox[0];
    assert s.clients[c].fate == HandedOver(id) && HandlerInv(s, s.clients[c]);
    RepliesByFate(s.clients[c]);
  }

  // ------------------------------------------------------------------- restarts

  /** During a restart, the companions among the first `n` that are still open belong to modules not cleared yet. */
  ghost predicate Sweeping(s: State, n: nat)
  {
    && n <= |s.companions| && s.accept.Clearing?
    && (forall id :: 0 <= id < n && s.companions[id].open ==> s.companions[id].mod >= s.accept.next)
  }

  lemma StepKeepsSweeping(s: State, e: Event, n: nat)
    requires WellSized(s) && SlotInv(s) && Enabled(s, e) && Sweeping(s, n) && e != RestartEnds
    ensures Sweeping(Step(s, e), n)
  {
    var t := Step(s, e);
    forall id | 0 <= id < n && t.companions[id].open
      ensures t.companions[id].mod >= t.accept.next
    {
      assert s.companions[id].open && t.companions[id].mod == s.companions[id].mod;
    }
  }

  lemma {:induction false} RunKeepsSweeping(s: State, events: seq<Event>, n: nat)
    requires Inv(s) && Sweeping(s, n) && Feasible(s, events)
    requires forall i :: 0 <= i < |events| ==> events[i] != RestartEnds
    ensures Inv(Run(s, events)) && Sweeping(Run(s, events), n)
    decreases |events|
  {
    if events == [] {
      assert Run(s, events) == s;
    } else {
      StepKeepsInv(s, events[0]);
      StepKeepsSweeping(s, events[0], n);
      RunKeepsSweeping(Step(s, events[0]), events[1..], n);
    }
  }

  /**
   Whatever handlers and companions do while a restart goes through the modules, waiting for each mutex: when it has
   gone through them all, the daemon end of every companion that existed when it began is closed.
   */
  lemma RestartClosesOldCompanions(s: State, during: seq<Event>)
    requires Inv(s) && Enabled(s, RestartBegins) && Feasible(Step(s, RestartBegins), during)
    requires forall i :: 0 <= i < |during| ==> during[i] != RestartEnds
    requires var t := Run(Step(s, RestartBegins), during); t.accept == Clearing(|t.slots|)
    ensures
      var t := Run(Step(s, RestartBegins), during);
      |s.companions| <= |t.companions| && forall id :: 0 <= id < |s.companions| ==> !t.companions[id].open
  {
    StepKeepsInv(s, RestartBegins);
    RunKeepsSweeping(Step(s, RestartBegins), during, |s.companions|);
  }

  // ---------------------------------------------------------------- two answers

  /** A request whose forked child fails before `exec` is answered twice. */
  lemma ReturnedChildAnswersTwice()
    ensures
      var events := [Accept(7, 0), Lock(7), Check(7), Spawn(7, ChildReturned), Reply(7, false)];
      && Feasible(Initial(1), events)
      && 7 in Run(Initial(1), events).clients && Run(Initial(1), events).clients[7].replies == [0, 0]
  {
    var tail := [Lock(7), Check(7), Spawn(7, ChildReturned)] + [Reply(7, false)];
    var s1 := Step(Initial(1), Accept(7, 0));
    assert s1.clients[7] == Handler(0, Requested, Pending, false, []) && s1.slots == [Unset] && s1.locks == [None];
    ReturnedChildRequest(s1);
    RunFrom(Initial(1), Accept(7, 0), tail);
    assert [Accept(7, 0)] + tail ==
           [Accept(7, 0), Lock(7), Check(7), Spawn(7, ChildReturned), Reply(7, false)];
  }

  lemma ReturnedChildRequest(s: State)
    requires s.slots == [Unset] && s.locks == [None]
    requires 7 in s.clients && s.clients[7] == Handler(0, Requested, Pending, false, [])
    ensures
      var events := [Lock(7), Check(7), Spawn(7, ChildReturned)] + [Reply(7, false)];
      Feasible(s, events) && 7 in Run(s, events).clients && Run(s, events).clients[7].replies == [0, 0]
  {
    ReturnedChildSettles(s);
    RunFrom(Settled(s, 7, ChildReturned), Reply(7, false), []);
    SettlingRuns(s, 7, ChildReturned, [Reply(7, false)]);
  }

  lemma ReturnedChildSettles(s: State)
    requires s.slots == [Unset] && s.locks == [None]
    requires 7 in s.clients && s.clients[7] == Handler(0, Requested, Pending, false, [])
    ensures Settled(s, 7, ChildReturned).clients[7] == Handler(0, Resolved, Pending, true, [0])
  {
    var s1 := Step(s, Lock(7));
    assert s1.clients[7] == Handler(0, Locked, Pending, false, []) && s1.slots == [Unset] && |s1.locks| == 1;
    var s2 := Step(s1, Check(7));
    assert s2.clients[7] == Handler(0, Checked, Pending, false, []) && s2.slots == [Unset];
  }
}
