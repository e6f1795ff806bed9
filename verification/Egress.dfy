/** The egress pump: deliveries, spawned forwards and the retry budget, as an interleaved step system. */
module Egress {
  import opened Prelude
  import opened Gate

  // ----- attempts and dispositions -----

  const U32_MAX: nat := 0xFFFF_FFFF

  type Attempts = map<nat, nat>

  function AttemptsOf(attempts: Attempts, sequence: nat): nat {
    if sequence in attempts then attempts[sequence] else 0
  }

  function SaturatingIncrement(n: nat): nat { if n >= U32_MAX then U32_MAX else n + 1 }

  class ForwardAttempts {
    var bySequence: Attempts

    constructor ()
      ensures bySequence == map[]
    {
      bySequence := map[];
    }

    /** Records a failed forward and returns the new count. */
    method RecordAttempt(sequence: nat) returns (count: nat)
      modifies this
      ensures count == SaturatingIncrement(AttemptsOf(old(bySequence), sequence))
      ensures bySequence == old(bySequence)[sequence := count]
    {
      if sequence !in bySequence {
        bySequence := bySequence[sequence := 0];
      }
      count := SaturatingIncrement(bySequence[sequence]);
      bySequence := bySequence[sequence := count];
    }

    method Clear(sequence: nat)
      modifies this
      ensures bySequence == old(bySequence) - {sequence}
    {
      bySequence := bySequence - {sequence};
    }
  }

  datatype Disposition = Ack | Nak | Term

  function ForwardDisposition(attempt: nat, failed: bool): Disposition {
    if !failed then Ack else if attempt < 3 then Nak else Term
  }

  // ----- the step system -----

  /** A spawned task forwards its message, settles it, and at last drops its permit. */
  datatype Stage = Forwarding | Settling(disposition: Disposition) | Leaving

  datatype Task = Task(sequence: nat, caller: Principal, stage: Stage)

  /** A message without an address is terminated too, but by a reply of its own kind: nothing is cleared for it. */
  datatype Reply = AckReply | NakReply | TermReply | GateNakReply | UnroutableReply

  /** What happened, in order. */
  datatype Note =
    | Failed(sequence: nat, disposition: Disposition)
    | Replied(sequence: nat, reply: Reply)
    | Cleared(sequence: nat)

  datatype PumpState = PumpState(gate: GateState, attempts: Attempts, tasks: map<nat, Task>, notes: seq<Note>)

  /** A delivery names the caller the message is addressed to, if it can be routed. */
  datatype PumpEvent =
    | Deliver(task: nat, sequence: nat, caller: Option<Principal>)
    | Forwarded(task: nat, ok: bool)
    | Settled(task: nat, confirmed: bool)
    | Left(task: nat)

  const IDLE: PumpState := PumpState(GateState(map[], multiset{}), map[], map[], [])

  function DeliverStep(limit: nat, s: PumpState, task: nat, sequence: nat, caller: Option<Principal>): PumpState {
    if caller.None? then s.(notes := s.notes + [Replied(sequence, UnroutableReply)])
    else
      var gate := GateStep(limit, s.gate, Acquire(caller.value));
      if Grants(limit, s.gate, caller.value)
      then s.(gate := gate, tasks := s.tasks[task := Task(sequence, caller.value, Forwarding)])
      else s.(gate := gate, notes := s.notes + [Replied(sequence, GateNakReply)])
  }

  function ForwardedStep(s: PumpState, task: nat, ok: bool): PumpState
    requires task in s.tasks
  {
    var t := s.tasks[task];
    if ok then s.(tasks := s.tasks[task := t.(stage := Settling(ForwardDisposition(0, false)))])
    else
      var attempt := SaturatingIncrement(AttemptsOf(s.attempts, t.sequence));
      var disposition := ForwardDisposition(attempt, true);
      s.(attempts := s.attempts[t.sequence := attempt],
         tasks := s.tasks[task := t.(stage := Settling(disposition))],
         notes := s.notes + [Failed(t.sequence, disposition)])
  }

  /** The replies and the clearing with which a message is settled. */
  function Ending(sequence: nat, disposition: Disposition, confirmed: bool): seq<Note> {
    match disposition
    case Ack =>
      [Replied(sequence, AckReply)] + (if confirmed then [] else [Replied(sequence, TermReply)]) + [Cleared(sequence)]
    case Nak => [Replied(sequence, NakReply)]
    case Term => [Replied(sequence, TermReply), Cleared(sequence)]
  }

  function SettledStep(s: PumpState, task: nat, confirmed: bool): PumpState
    requires task in s.tasks && s.tasks[task].stage.Settling?
  {
    var t := s.tasks[task];
    s.(attempts := if t.stage.disposition == Nak then s.attempts else s.attempts - {t.sequence},
       tasks := s.tasks[task := t.(stage := Leaving)],
       notes := s.notes + Ending(t.sequence, t.stage.disposition, confirmed))
  }

  function LeftStep(limit: nat, s: PumpState, task: nat): PumpState
    requires task in s.tasks
  {
    s.(gate := GateStep(limit, s.gate, Drop(s.tasks[task].caller)), tasks := s.tasks - {task})
  }

  predicate Enabled(s: PumpState, e: PumpEvent) {
    match e
    case Deliver(task, _, _) => task !in s.tasks
    case Forwarded(task, _) => task in s.tasks && s.tasks[task].stage == Forwarding
    case Settled(task, _) => task in s.tasks && s.tasks[task].stage.Settling?
    case Left(task) => task in s.tasks && s.tasks[task].stage == Leaving
  }

  function PumpStep(limit: nat, s: PumpState, e: PumpEvent): PumpState
    requires Enabled(s, e)
  {
    match e
    case Deliver(task, sequence, caller) => DeliverStep(limit, s, task, sequence, caller)
    case Forwarded(task, ok) => ForwardedStep(s, task, ok)
    case Settled(task, confirmed) => SettledStep(s, task, confirmed)
    case Left(task) => LeftStep(limit, s, task)
  }

  // ----- permits and tasks -----

  ghost function IsOf(caller: Principal): Task -> int {
    (t: Task) => if t.caller == caller then 1 else 0
  }

  /** The number of a caller's running tasks. */
  ghost function Held(tasks: map<nat, Task>, caller: Principal): int { Tally(tasks, IsOf(caller)) }

  ghost predicate PermitsHeld(live: multiset<Principal>, tasks: map<nat, Task>) {
    forall caller :: live[caller] == Held(tasks, caller)
  }

  lemma HeldOneMore(live: multiset<Principal>, tasks: map<nat, Task>, task: nat, t: Task)
    requires PermitsHeld(live, tasks) && task !in tasks
    ensures PermitsHeld(live + multiset{t.caller}, tasks[task := t])
  {
    forall caller
      ensures (live + multiset{t.caller})[caller] == Held(tasks[task := t], caller)
    {
      TallySet(tasks, IsOf(caller), task, t);
      assert live[caller] == Held(tasks, caller);
    }
  }

  lemma HeldRestaged(live: multiset<Principal>, tasks: map<nat, Task>, task: nat, stage: Stage)
    requires PermitsHeld(live, tasks) && task in tasks
    ensures PermitsHeld(live, tasks[task := tasks[task].(stage := stage)])
  {
    forall caller
      ensures live[caller] == Held(tasks[task := tasks[task].(stage := stage)], caller)
    {
      TallySet(tasks, IsOf(caller), task, tasks[task].(stage := stage));
      assert live[caller] == Held(tasks, caller);
    }
  }

  lemma HeldOneLess(live: multiset<Principal>, tasks: map<nat, Task>, task: nat)
    requires PermitsHeld(live, tasks) && task in tasks
    ensures tasks[task].caller in live
    ensures PermitsHeld(live - multiset{tasks[task].caller}, tasks - {task})
  {
    forall caller
      ensures live[caller] == Held(tasks - {task}, caller) + IsOf(caller)(tasks[task])
      ensures Held(tasks - {task}, caller) >= 0
    {
      TallyRemove(tasks, IsOf(caller), task);
      assert live[caller] == Held(tasks, caller);
      TallyNonNegative(tasks - {task}, IsOf(caller));
    }
    assert live[tasks[task].caller] >= 1;
  }

  // ----- the pump -----

  datatype Delivery = Delivery(task: nat, sequence: nat, caller: Option<Principal>, acknowledged: bool)

  /** What the batch yields: the signal to stop, an error, or a message with the outcome of answering it at once. */
  datatype Item = Shutdown | FetchError | Message(delivery: Delivery)

  datatype PullCycleError = FetchItem | AckFailed

  class EgressPump {
    const limit: nat
    const gate: CallerInflightGate
    const forwardAttempts: ForwardAttempts
    var tasks: map<nat, Task>
    ghost var notes: seq<Note>

    ghost function Abstract(): PumpState
      reads this, gate, forwardAttempts
    {
      PumpState(gate.Abstract(), forwardAttempts.bySequence, tasks, notes)
    }

    /** Every task holds a permit of its caller, and nobody else holds one. */
    ghost predicate Valid()
      reads this, gate
    {
      gate.limit == limit && PermitsHeld(gate.live, tasks)
    }

    constructor (limit: nat)
      ensures Valid() && fresh(gate) && fresh(forwardAttempts) && this.limit == limit && Abstract() == IDLE
    {
      this.limit := limit;
      gate := new CallerInflightGate(limit);
      forwardAttempts := new ForwardAttempts();
      tasks, notes := map[], [];
    }

    /** Routes one message: a message without an address is terminated, one whose caller is at the limit is put off, and
        any other is forwarded by a task of its own that holds the permit. */
    method DeliverOne(task: nat, sequence: nat, caller: Option<Principal>, acknowledged: bool)
        returns (error: Option<PullCycleError>)
      requires Valid() && task !in tasks
      modifies this, gate
      ensures Valid() && Abstract() == DeliverStep(limit, old(Abstract()), task, sequence, caller)
      ensures error == if acknowledged || task in tasks then None else Some(AckFailed)
    {
      if caller.None? {
        notes := notes + [Replied(sequence, UnroutableReply)];
        return if acknowledged then None else Some(AckFailed);
      }
      var permit := gate.TryAcquire(caller.value);
      if permit.None? {
        notes := notes + [Replied(sequence, GateNakReply)];
        return if acknowledged then None else Some(AckFailed);
      }
      HeldOneMore(gate.live - multiset{permit.value}, tasks, task, Task(sequence, permit.value, Forwarding));
      tasks := tasks[task := Task(sequence, permit.value, Forwarding)];
      return None;
    }

    /** The task's publish is over. */
    method FinishForward(task: nat, ok: bool)
      requires Valid() && task in tasks && tasks[task].stage == Forwarding
      modifies this, forwardAttempts
      ensures Valid() && Abstract() == ForwardedStep(old(Abstract()), task, ok)
    {
      var t := tasks[task];
      var attempt := 0;
      if !ok {
        attempt := forwardAttempts.RecordAttempt(t.sequence);
      }
      var disposition := ForwardDisposition(attempt, !ok);
      if !ok {
        notes := notes + [Failed(t.sequence, disposition)];
      }
      HeldRestaged(gate.live, tasks, task, Settling(disposition));
      tasks := tasks[task := t.(stage := Settling(disposition))];
    }

    /** The task answers its message and clears its count unless the message may be redelivered. */
    method Settle(task: nat, confirmed: bool)
      requires Valid() && task in tasks && tasks[task].stage.Settling?
      modifies this, forwardAttempts
      ensures Valid() && Abstract() == SettledStep(old(Abstract()), task, confirmed)
    {
      var t := tasks[task];
      match t.stage.disposition {
        case Ack =>
          notes := notes + [Replied(t.sequence, AckReply)];
          if !confirmed {
            notes := notes + [Replied(t.sequence, TermReply)];
          }
          forwardAttempts.Clear(t.sequence);
          notes := notes + [Cleared(t.sequence)];
        case Nak =>
          notes := notes + [Replied(t.sequence, NakReply)];
        case Term =>
          notes := notes + [Replied(t.sequence, TermReply)];
          forwardAttempts.Clear(t.sequence);
          notes := notes + [Cleared(t.sequence)];
      }
      assert notes == old(notes) + Ending(t.sequence, t.stage.disposition, confirmed);
      HeldRestaged(gate.live, tasks, task, Leaving);
      tasks := tasks[task := t.(stage := Leaving)];
    }

    /** The task ends and drops its permit. */
    method Leave(task: nat)
      requires Valid() && task in tasks && tasks[task].stage == Leaving
      modifies this, gate
      ensures Valid() && Abstract() == LeftStep(limit, old(Abstract()), task)
    {
      HeldOneLess(gate.live, tasks, task);
      gate.Release(tasks[task].caller);
      tasks := tasks - {task};
    }

    /** Delivers the messages of a batch until it is exhausted, the pump is told to stop, or an error ends the cycle. */
    method ForwardEgressDeliveries(batch: seq<Item>) returns (error: Option<PullCycleError>)
      requires Valid() && FreshTasks(tasks.Keys, batch)
      modifies this, gate
      ensures Valid() && BatchReply(Abstract(), error) == DeliverBatch(limit, old(Abstract()), batch)
    {
      ghost var start := Abstract();
      assert batch[0..] == batch;
      for i := 0 to |batch|
        invariant Valid() && Reached(limit, start, batch, i, Abstract())
      {
        ReachedNext(limit, start, batch, i, Abstract());
        if batch[i].Shutdown? {
          return None;
        }
        if batch[i].FetchError? {
          return Some(FetchItem);
        }
        var delivery := batch[i].delivery;
        error := DeliverOne(delivery.task, delivery.sequence, delivery.caller, delivery.acknowledged);
        if error.Some? {
          return;
        }
      }
      error := None;
    }
  }

  // ----- batches -----

  datatype BatchReply = BatchReply(state: PumpState, error: Option<PullCycleError>)

  function DeliverBatch(limit: nat, s: PumpState, batch: seq<Item>): BatchReply
    decreases |batch|
  {
    if batch == [] || batch[0].Shutdown? then BatchReply(s, None)
    else if batch[0].FetchError? then BatchReply(s, Some(FetchItem))
    else
      var d := batch[0].delivery;
      var next := DeliverStep(limit, s, d.task, d.sequence, d.caller);
      if !d.acknowledged && d.task !in next.tasks then BatchReply(next, Some(AckFailed))
      else DeliverBatch(limit, next, batch[1..])
  }

  /** The tasks a batch may spawn are new and differ from each other. */
  ghost predicate FreshTasks(used: set<nat>, batch: seq<Item>)
    decreases |batch|
  {
    batch == [] || (if batch[0].Message? then
                      batch[0].delivery.task !in used && FreshTasks(used + {batch[0].delivery.task}, batch[1..])
                    else FreshTasks(used, batch[1..]))
  }

  lemma {:induction false} FreshAmong(used: set<nat>, batch: seq<Item>, task: nat)
    requires FreshTasks(used + {task}, batch)
    ensures FreshTasks(used, batch)
    decreases |batch|
  {
    if batch != [] {
      if batch[0].Message? {
        assert used + {task} + {batch[0].delivery.task} == used + {batch[0].delivery.task} + {task};
        FreshAmong(used + {batch[0].delivery.task}, batch[1..], task);
      } else {
        FreshAmong(used, batch[1..], task);
      }
    }
  }

  /** After `i` items without a stop the pump is in state `s`. */
  ghost predicate Reached(limit: nat, start: PumpState, batch: seq<Item>, i: nat, s: PumpState)
    requires i <= |batch|
  {
    FreshTasks(s.tasks.Keys, batch[i..]) && DeliverBatch(limit, start, batch) == DeliverBatch(limit, s, batch[i..])
  }

  lemma ReachedNext(limit: nat, start: PumpState, batch: seq<Item>, i: nat, s: PumpState)
    requires i < |batch| && Reached(limit, start, batch, i, s)
    ensures batch[i].Shutdown? ==> DeliverBatch(limit, start, batch) == BatchReply(s, None)
    ensures batch[i].FetchError? ==> DeliverBatch(limit, start, batch) == BatchReply(s, Some(FetchItem))
    ensures batch[i].Message? ==>
              var d := batch[i].delivery;
              var next := DeliverStep(limit, s, d.task, d.sequence, d.caller);
              && d.task !in s.tasks
              && (if d.acknowledged || d.task in next.tasks then Reached(limit, start, batch, i + 1, next)
                  else DeliverBatch(limit, start, batch) == BatchReply(next, Some(AckFailed)))
  {
    assert batch[i..][1..] == batch[i + 1..];
    if batch[i].Message? {
      var d := batch[i].delivery;
      FreshAmong(s.tasks.Keys, batch[i + 1..], d.task);
      var next := DeliverStep(limit, s, d.task, d.sequence, d.caller);
      assert next.tasks.Keys == s.tasks.Keys || next.tasks.Keys == s.tasks.Keys + {d.task};
    }
  }
}
