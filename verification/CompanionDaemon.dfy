/**
 The daemon's side of the companion protocol as it is written: shared fields updated inside critical sections. Every
 method performs a step of the transition system, so the class keeps its invariant in every interleaving.
 */
module CompanionDaemon {
  import opened Prelude
  import opened CompanionModel
  import opened CompanionProofs

  class Daemon {
    var slots: seq<Slot>
    var locks: seq<Option<Client>>
    var companions: seq<Companion>
    var clients: map<Client, Handler>
    var accept: AcceptLoop
    ghost var log: seq<Entry>

    ghost function Model(): State
      reads this
    {
      State(slots, locks, companions, clients, accept, log)
    }

    ghost predicate Valid()
      reads this
    {
      Inv(Model())
    }

    constructor (modules: nat)
      ensures Valid() && Model() == Initial(modules)
    {
      slots, locks := seq(modules, _ => Unset), seq(modules, _ => None);
      companions, clients, accept, log := [], map[], Idle, [];
      new;
      InitialInv(modules);
    }

    method SetStage(c: Client, stage: Stage)
      requires c in clients
      modifies this`clients
      ensures Model() == Advance(old(Model()), c, stage)
    {
      clients := clients[c := clients[c].(stage := stage)];
    }

    /** `companion.take()` */
    method Take(m: nat)
      requires m < |slots|
      modifies this`slots, this`companions
      ensures Model() == TakeSlot(old(Model()), m)
    {
      if slots[m].Conn? && slots[m].id < |companions| {
        var id := slots[m].id;
        companions := companions[id := companions[id].(open := false)];
      }
      slots := slots[m := Unset];
    }

    method AcquireLock(c: Client)
      requires WellSized(Model()) && Enabled(Model(), Lock(c))
      modifies this`clients, this`locks
      ensures Model() == Step(old(Model()), Lock(c))
    {
      locks := locks[clients[c].index := Some(c)];
      SetStage(c, Locked);
    }

    /** A companion found gone is dropped from its slot. */
    method CheckPeer(c: Client)
      requires WellSized(Model()) && Enabled(Model(), Check(c))
      modifies this
      ensures Model() == Step(old(Model()), Check(c))
    {
      var m := clients[c].index;
      if slots[m].Conn? {
        var id := slots[m].id;
        if !(id < |companions| && companions[id].alive) {
          Take(m);
          log := log + [CrashDetected(m)];
        }
      }
      SetStage(c, Checked);
    }

    method SpawnIfUnset(c: Client, outcome: Outcome)
      requires WellSized(Model()) && Enabled(Model(), Spawn(c, outcome))
      modifies this
      ensures Model() == Step(old(Model()), Spawn(c, outcome))
    {
      var h := clients[c];
      var m := h.index;
      if slots[m] == Unset {
        log := log + [Spawned(m, outcome)];
        match outcome {
          case Started =>
            slots := slots[m := Conn(|companions|)];
            companions := companions + [Companion(m, true, true, [])];
          case AnsweredNoEntry =>
            slots := slots[m := NoEntry];
          case ChildReturned =>
            clients := clients[c := h.(childReturned := true, replies := h.replies + [0])];
          case _ =>
        }
      }
      SetStage(c, Resolved);
    }

    /** Hand the descriptor over, or write 0. */
    method Answer(c: Client, sent: bool)
      requires WellSized(Model()) && Enabled(Model(), Reply(c, sent))
      modifies this`clients, this`companions
      ensures Model() == Step(old(Model()), Reply(c, sent))
    {
      var h := clients[c];
      if slots[h.index].Conn? && sent {
        var id := slots[h.index].id;
        companions := companions[id := companions[id].(inbox := companions[id].inbox + [c])];
        clients := clients[c := h.(stage := Answered, fate := HandedOver(id))];
      } else {
        clients := clients[c := h.(stage := Answered, fate := Refused, replies := h.replies + [0])];
      }
    }

    method ReleaseLock(c: Client)
      requires WellSized(Model()) && Enabled(Model(), Unlock(c))
      modifies this`clients, this`locks
      ensures Model() == Step(old(Model()), Unlock(c))
    {
      locks := locks[clients[c].index := None];
      SetStage(c, Finished);
    }

    method SettleSlot(c: Client, outcome: Outcome)
      requires WellSized(Model()) && Enabled(Model(), Lock(c))
      modifies this
      ensures Model() == Settled(old(Model()), c, outcome)
    {
      AcquireLock(c);
      CheckPeer(c);
      SpawnIfUnset(c, outcome);
    }

    /**
     One whole request, when nobody interferes, is the run of its five steps. What it does is said by `RequestOutcome`
     in terms of the slot before it: who gets the client, what is spawned and what the slot holds.
     */
    method HandleRequest(c: Client, outcome: Outcome, sendWorks: bool) returns (sent: bool)
      requires Valid() && Enabled(Model(), Lock(c))
      modifies this
      ensures Valid() && |slots| == |old(slots)| && c in clients
      ensures RequestOutcome(old(Model()), Model(), c, outcome, sendWorks, sent)
      ensures Feasible(old(Model()), RequestEvents(c, outcome, sent))
      ensures Model() == Run(old(Model()), RequestEvents(c, outcome, sent))
    {
      SettleSlot(c, outcome);
      var m := clients[c].index;
      sent := slots[m].Conn? && slots[m].id < |companions| && companions[slots[m].id].alive && sendWorks;
      SettledOutcome(old(Model()), c, outcome);
      RequestOutcomeHolds(old(Model()), c, outcome, sendWorks, sent);
      Answer(c, sent);
      ReleaseLock(c);
      RequestRuns(old(Model()), c, outcome, sent);
      RunKeepsInv(old(Model()), RequestEvents(c, outcome, sent));
    }

    /** The turn of the restart loop that takes the next module's mutex and empties its slot. */
    method ClearNext()
      requires WellSized(Model()) && Enabled(Model(), RestartClears)
      modifies this`slots, this`companions, this`accept, this`log
      ensures Model() == Step(old(Model()), RestartClears)
    {
      var m := accept.next;
      log := log + [Cleared(m, slots[m].Conn?)];
      Take(m);
      accept := Clearing(m + 1);
    }

    /** The accept loop hands a request to a new handler; an index out of range ends it at once. */
    method AcceptRequest(c: Client, index: nat)
      requires WellSized(Model()) && Enabled(Model(), Accept(c, index))
      modifies this`clients
      ensures Model() == Step(old(Model()), Accept(c, index))
    {
      clients := clients[c := Handler(index, if index < |slots| then Requested else Finished, Pending, false, [])];
    }

    /** One turn of the companion's request loop. */
    method ReceiveNext(id: nat)
      requires WellSized(Model()) && Enabled(Model(), Receive(id))
      modifies this`clients, this`companions
      ensures Model() == Step(old(Model()), Receive(id))
    {
      var k := companions[id];
      var c := k.inbox[0];
      companions := companions[id := k.(inbox := k.inbox[1..])];
      if c in clients {
        clients := clients[c := clients[c].(fate := Accepted(id), replies := clients[c].replies + [1])];
      }
    }

    /** A companion dies, and with it the descriptors it had not received. */
    method Die(id: nat)
      requires WellSized(Model()) && Enabled(Model(), CompanionModel.Crash(id))
      modifies this`companions
      ensures Model() == Step(old(Model()), CompanionModel.Crash(id))
    {
      companions := companions[id := companions[id].(alive := false, inbox := [])];
    }

    method Perform(e: Event)
      requires Valid() && Enabled(Model(), e)
      modifies this
      ensures Valid() && Model() == Step(old(Model()), e)
    {
      StepKeepsInv(Model(), e);
      match e {
        case Accept(c, index) => AcceptRequest(c, index);
        case Lock(c) => AcquireLock(c);
        case Check(c) => CheckPeer(c);
        case Spawn(c, outcome) => SpawnIfUnset(c, outcome);
        case Reply(c, sent) => Answer(c, sent);
        case Unlock(c) => ReleaseLock(c);
        case Receive(id) => ReceiveNext(id);
        case Crash(id) => Die(id);
        case RestartBegins => accept := Clearing(0);
        case RestartClears => ClearNext();
        case RestartEnds => accept := Idle;
      }
    }

    /**
     The steps of all threads, in any feasible interleaving: afterwards every module has at most one open companion, all
     spawns are accounted for, "no entry" answers were respected, every client's replies are exclusive, and every client
     handed over is at a companion of its module.
     */
    method Serve(events: seq<Event>)
      requires Valid() && Feasible(Model(), events)
      modifies this
      ensures Valid() && Model() == Run(old(Model()), events)
      ensures SingleCompanions(Model()) && NoEntryRespected(log)
      ensures forall c :: c in clients ==> RepliesExclusive(clients[c]) && Routed(Model(), clients[c])
    {
      for i := 0 to |events|
        invariant Valid() && Feasible(Model(), events[i..])
        invariant Run(Model(), events[i..]) == Run(old(Model()), events)
      {
        assert events[i..][1..] == events[i + 1..];
        Perform(events[i]);
      }
      InvRespectsNoEntry(Model());
      forall c | c in clients
        ensures RepliesExclusive(clients[c])
      {
        InvKeepsRepliesExclusive(Model(), c);
      }
    }
  }
}
