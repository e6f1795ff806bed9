/** Which failure counts the egress pump retains between deliveries. */
module EgressRetained {
  import opened Prelude
  import opened Gate
  import opened Egress
  import opened EgressRuns
  import opened EgressBudget

  /** Some task is about to settle a failed forward of the message with the disposition `d`. */
  predicate SettlingFailure(tasks: map<nat, Task>, sequence: nat, d: Disposition) {
    exists i :: i in tasks && tasks[i].sequence == sequence && tasks[i].stage == Settling(d)
  }

  /** The last reply left the count alone: the message was put off, or had no address. */
  predicate LeftPending(notes: seq<Note>, sequence: nat) {
    var last := LastReply(notes, sequence);
    last == Some(NakReply) || last == Some(GateNakReply) || last == Some(UnroutableReply)
  }

  /** A third failure is still to be settled by a termination, and any failure still to be settled or put off. */
  predicate RetainedOk(s: PumpState, sequence: nat) {
    var n := Failures(s.notes, sequence);
    && (n >= 3 ==> SettlingFailure(s.tasks, sequence, Term))
    && (n > 0 ==> || SettlingFailure(s.tasks, sequence, Nak) || SettlingFailure(s.tasks, sequence, Term)
                  || LeftPending(s.notes, sequence))
  }

  /** Tasks about to settle stay so while others move. */
  lemma SettlingStays(tasks: map<nat, Task>, task: nat, t: Task, sequence: nat, d: Disposition)
    requires SettlingFailure(tasks, sequence, d)
    requires task in tasks ==> tasks[task].sequence != sequence || tasks[task].stage != Settling(d)
    ensures SettlingFailure(tasks[task := t], sequence, d) && SettlingFailure(tasks - {task}, sequence, d)
  {
    var i :| i in tasks && tasks[i].sequence == sequence && tasks[i].stage == Settling(d);
    assert tasks[task := t][i] == tasks[i] && i in tasks - {task};
  }

  lemma OthersStay(tasks: map<nat, Task>, task: nat, t: Task, sequence: nat)
    requires task in tasks ==>
               tasks[task].sequence != sequence || tasks[task].stage == Forwarding || tasks[task].stage == Settling(Ack)
               || tasks[task].stage == Leaving
    ensures SettlingFailure(tasks, sequence, Nak) ==>
              SettlingFailure(tasks[task := t], sequence, Nak) && SettlingFailure(tasks - {task}, sequence, Nak)
    ensures SettlingFailure(tasks, sequence, Term) ==>
              SettlingFailure(tasks[task := t], sequence, Term) && SettlingFailure(tasks - {task}, sequence, Term)
  {
    if SettlingFailure(tasks, sequence, Nak) {
      SettlingStays(tasks, task, t, sequence, Nak);
    }
    if SettlingFailure(tasks, sequence, Term) {
      SettlingStays(tasks, task, t, sequence, Term);
    }
  }

  lemma DeliverRetained(limit: nat, s: PumpState, e: PumpEvent, sequence: nat)
    requires Enabled(s, e) && e.Deliver? && RetainedOk(s, sequence)
    ensures RetainedOk(PumpStep(limit, s, e), sequence)
  {
    var reply := if e.caller.None? then UnroutableReply else GateNakReply;
    OneNote(s.notes, Replied(e.sequence, reply), sequence);
    if e.caller.Some? {
      OthersStay(s.tasks, e.task, Task(e.sequence, e.caller.value, Forwarding), sequence);
    }
  }

  lemma ForwardedRetained(limit: nat, s: PumpState, e: PumpEvent, sequence: nat)
    requires Enabled(s, e) && e.Forwarded? && RetainedOk(s, sequence) && CountsOk(s)
    ensures RetainedOk(PumpStep(limit, s, e), sequence)
  {
    var after := PumpStep(limit, s, e);
    var t := s.tasks[e.task];
    OthersStay(s.tasks, e.task, after.tasks[e.task], sequence);
    if !e.ok {
      var note := after.notes[|s.notes|];
      OneNote(s.notes, note, sequence);
      assert CountOk(s, t.sequence);
      assert after.tasks[e.task].stage == Settling(note.disposition);
    }
  }

  lemma SettledRetained(limit: nat, s: PumpState, e: PumpEvent, sequence: nat)
    requires Enabled(s, e) && e.Settled? && RetainedOk(s, sequence)
    ensures RetainedOk(PumpStep(limit, s, e), sequence)
  {
    var t := s.tasks[e.task];
    EndingNotes(s.notes, t.sequence, t.stage.disposition, e.confirmed, sequence);
    if t.sequence != sequence {
      OthersStay(s.tasks, e.task, t.(stage := Leaving), sequence);
    } else if t.stage.disposition == Nak && SettlingFailure(s.tasks, sequence, Term) {
      SettlingStays(s.tasks, e.task, t.(stage := Leaving), sequence, Term);
    }
  }

  lemma StepRetained(limit: nat, s: PumpState, e: PumpEvent, sequence: nat)
    requires Enabled(s, e) && RetainedOk(s, sequence) && CountsOk(s)
    ensures RetainedOk(PumpStep(limit, s, e), sequence)
  {
    match e
    case Deliver(_, _, _) => DeliverRetained(limit, s, e, sequence);
    case Forwarded(_, _) => ForwardedRetained(limit, s, e, sequence);
    case Settled(_, _) => SettledRetained(limit, s, e, sequence);
    case Left(task) => OthersStay(s.tasks, task, s.tasks[task], sequence);
  }

  lemma {:induction false} RunRetained(limit: nat, events: seq<PumpEvent>, sequence: nat)
    ensures RetainedOk(PumpRun(limit, events), sequence)
  {
    if events != [] {
      var s, e := PumpRun(limit, events[..|events| - 1]), events[|events| - 1];
      RunRetained(limit, events[..|events| - 1], sequence);
      CountsExact(limit, events[..|events| - 1]);
      if Enabled(s, e) {
        StepRetained(limit, s, e, sequence);
      }
    }
  }

  /** No task has a delivery of the message still to forward or to settle. */
  predicate Idle(tasks: map<nat, Task>, sequence: nat) {
    forall i :: i in tasks && tasks[i].sequence == sequence ==> tasks[i].stage == Leaving
  }

  /** In every run, overlapping or not, a count retained while no task works on its message is one or two, and the last
      reply to the message left it pending. */
  lemma RetainedCounts(limit: nat, events: seq<PumpEvent>, sequence: nat)
    requires var s := PumpRun(limit, events); Idle(s.tasks, sequence) && sequence in s.attempts
    ensures var s := PumpRun(limit, events); 1 <= s.attempts[sequence] <= 2 && LeftPending(s.notes, sequence)
  {
    RunRetained(limit, events, sequence);
    CountsExact(limit, events);
    assert CountOk(PumpRun(limit, events), sequence);
  }

  // ----- messages that keep their address -----

  type Routing = nat -> Option<Principal>

  /** Every delivery of a sequence is addressed to the same caller, or to none. */
  predicate Consistent(route: Routing, events: seq<PumpEvent>) {
    forall k :: 0 <= k < |events| && events[k].Deliver? ==> events[k].caller == route(events[k].sequence)
  }

  ghost predicate AddressOk(s: PumpState, sequence: nat, routable: bool) {
    if routable then LastReply(s.notes, sequence) != Some(UnroutableReply)
    else Failures(s.notes, sequence) == 0 && forall i :: i in s.tasks ==> s.tasks[i].sequence != sequence
  }

  lemma StepAddress(limit: nat, s: PumpState, e: PumpEvent, sequence: nat, routable: bool)
    requires Enabled(s, e) && AddressOk(s, sequence, routable)
    requires e.Deliver? && e.sequence == sequence ==> (e.caller.Some? <==> routable)
    ensures AddressOk(PumpStep(limit, s, e), sequence, routable)
  {
    match e
    case Deliver(task, q, caller) =>
      OneNote(s.notes, Replied(q, if caller.None? then UnroutableReply else GateNakReply), sequence);
    case Forwarded(task, ok) =>
      if !ok {
        OneNote(s.notes, PumpStep(limit, s, e).notes[|s.notes|], sequence);
      }
    case Settled(task, confirmed) =>
      EndingNotes(s.notes, s.tasks[task].sequence, s.tasks[task].stage.disposition, confirmed, sequence);
    case Left(_) =>
  }

  lemma {:induction false} RunAddress(limit: nat, route: Routing, events: seq<PumpEvent>, sequence: nat)
    requires Consistent(route, events)
    ensures AddressOk(PumpRun(limit, events), sequence, route(sequence).Some?)
  {
    if events != [] {
      var s, e := PumpRun(limit, events[..|events| - 1]), events[|events| - 1];
      RunAddress(limit, route, events[..|events| - 1], sequence);
      if Enabled(s, e) {
        StepAddress(limit, s, e, sequence, route(sequence).Some?);
      }
    }
  }

  /** Where a sequence stands for one message, a retained count belongs to a message that was put off and awaits its
      redelivery. */
  lemma RetainedAwaits(limit: nat, route: Routing, events: seq<PumpEvent>, sequence: nat)
    requires Consistent(route, events)
    requires var s := PumpRun(limit, events); Idle(s.tasks, sequence) && sequence in s.attempts
    ensures var last := LastReply(PumpRun(limit, events).notes, sequence);
            last == Some(NakReply) || last == Some(GateNakReply)
  {
    RetainedCounts(limit, events, sequence);
    RunAddress(limit, route, events, sequence);
    CountsExact(limit, events);
    assert CountOk(PumpRun(limit, events), sequence);
  }

  // ----- one delivery at a time -----

  /** A message is delivered again only when no task works on an earlier delivery of it. */
  predicate OneAtATime(limit: nat, events: seq<PumpEvent>) {
    events == []
    || (OneAtATime(limit, events[..|events| - 1])
        && (events[|events| - 1].Deliver? ==>
              Idle(PumpRun(limit, events[..|events| - 1]).tasks, events[|events| - 1].sequence)))
  }

  /** Deliveries that do not overlap are admitted by the guard, so they keep the budget. */
  lemma {:induction false} OneAtATimeIsGuarded(limit: nat, events: seq<PumpEvent>)
    requires OneAtATime(limit, events)
    ensures Guarded(limit, events) && BudgetKept(PumpRun(limit, events).notes)
  {
    if events != [] {
      var s, e := PumpRun(limit, events[..|events| - 1]), events[|events| - 1];
      OneAtATimeIsGuarded(limit, events[..|events| - 1]);
      if e.Deliver? {
        RunRetained(limit, events[..|events| - 1], e.sequence);
        TallyZero(s.tasks, IsForwarding(e.sequence));
      }
    }
    GuardedBudget(limit, events);
  }
}
