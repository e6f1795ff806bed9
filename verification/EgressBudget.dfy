/** The retry budget of the egress pump, and exactly which deliveries keep it. */
module EgressBudget {
  import opened Prelude
  import opened Gate
  import opened Egress
  import opened EgressRuns

  /** Of the failures since the last clearing the third, and no earlier one, terminates; there is no fourth. */
  const BUDGET_RULE: Rule := (n: nat, d: Disposition) => n <= 3 && d == if n == 3 then Term else Nak

  ghost predicate BudgetKept(notes: seq<Note>) { AllFailures(notes, BUDGET_RULE) }

  // ----- load -----

  ghost function IsForwarding(sequence: nat): Task -> int {
    (t: Task) => if t.sequence == sequence && t.stage == Forwarding then 1 else 0
  }

  /** Failures of a sequence so far and forwards of it that may still fail. */
  ghost function Load(s: PumpState, sequence: nat): int {
    Failures(s.notes, sequence) + Tally(s.tasks, IsForwarding(sequence))
  }

  /** The event is a delivery that starts a forward. */
  predicate Spawns(limit: nat, s: PumpState, e: PumpEvent) {
    e.Deliver? && Enabled(s, e) && e.caller.Some? && Grants(limit, s.gate, e.caller.value)
  }

  lemma DeliverLoad(limit: nat, s: PumpState, e: PumpEvent, sequence: nat)
    requires Enabled(s, e) && e.Deliver?
    ensures Load(PumpStep(limit, s, e), sequence)
         == Load(s, sequence) + (if Spawns(limit, s, e) && e.sequence == sequence then 1 else 0)
  {
    DeliveriesKeepCounts(limit, s, e.task, e.sequence, e.caller, sequence);
    if Spawns(limit, s, e) {
      TallySet(s.tasks, IsForwarding(sequence), e.task, Task(e.sequence, e.caller.value, Forwarding));
    }
  }

  lemma ForwardedLoad(limit: nat, s: PumpState, e: PumpEvent, sequence: nat)
    requires Enabled(s, e) && e.Forwarded?
    ensures Load(PumpStep(limit, s, e), sequence) <= Load(s, sequence)
    ensures !e.ok ==> Load(PumpStep(limit, s, e), sequence) == Load(s, sequence)
  {
    ForwardedFailures(s, e.task, e.ok, sequence);
    TallySet(s.tasks, IsForwarding(sequence), e.task, PumpStep(limit, s, e).tasks[e.task]);
  }

  lemma SettledLoad(limit: nat, s: PumpState, e: PumpEvent, sequence: nat)
    requires Enabled(s, e) && e.Settled?
    ensures Load(PumpStep(limit, s, e), sequence) <= Load(s, sequence)
  {
    SettledFailures(s, e.task, e.confirmed, sequence);
    TallySet(s.tasks, IsForwarding(sequence), e.task, s.tasks[e.task].(stage := Leaving));
  }

  /** Only a delivery that starts a forward adds to a load, and it adds one. */
  lemma StepLoad(limit: nat, s: PumpState, e: PumpEvent, sequence: nat)
    requires Enabled(s, e)
    ensures Load(PumpStep(limit, s, e), sequence)
         <= Load(s, sequence) + (if Spawns(limit, s, e) && e.sequence == sequence then 1 else 0)
  {
    match e
    case Deliver(_, _, _) => DeliverLoad(limit, s, e, sequence);
    case Forwarded(_, _) => ForwardedLoad(limit, s, e, sequence);
    case Settled(_, _) => SettledLoad(limit, s, e, sequence);
    case Left(task) => TallyRemove(s.tasks, IsForwarding(sequence), task);
  }

  /** No forward is started for a message whose failures and running forwards already make three. */
  ghost predicate Guarded(limit: nat, events: seq<PumpEvent>) {
    events == []
    || (Guarded(limit, events[..|events| - 1])
        && Admitted(limit, PumpRun(limit, events[..|events| - 1]), events[|events| - 1]))
  }

  /** The guard on one event, which can be read off the state before it. */
  ghost predicate Admitted(limit: nat, s: PumpState, e: PumpEvent) {
    Spawns(limit, s, e) ==> Load(s, e.sequence) < 3
  }

  lemma {:induction false} GuardedLoad(limit: nat, events: seq<PumpEvent>, sequence: nat)
    requires Guarded(limit, events)
    ensures Load(PumpRun(limit, events), sequence) <= 3
  {
    if events != [] {
      var s, e := PumpRun(limit, events[..|events| - 1]), events[|events| - 1];
      GuardedLoad(limit, events[..|events| - 1], sequence);
      if Enabled(s, e) {
        StepLoad(limit, s, e, sequence);
      }
    }
  }

  // ----- guarded runs keep the budget -----

  lemma {:induction false} GuardedBudget(limit: nat, events: seq<PumpEvent>)
    requires Guarded(limit, events)
    ensures BudgetKept(PumpRun(limit, events).notes)
  {
    if events != [] {
      var s, e := PumpRun(limit, events[..|events| - 1]), events[|events| - 1];
      GuardedBudget(limit, events[..|events| - 1]);
      if Enabled(s, e) {
        if e.Forwarded? && !e.ok {
          FailureWithinBudget(limit, events[..|events| - 1], e);
        }
        StepFailures(limit, s, e, BUDGET_RULE);
      }
    }
  }

  lemma FailureWithinBudget(limit: nat, events: seq<PumpEvent>, e: PumpEvent)
    requires Guarded(limit, events) && Enabled(PumpRun(limit, events), e) && e.Forwarded? && !e.ok
    ensures var s := PumpRun(limit, events);
            var sequence := s.tasks[e.task].sequence;
            BUDGET_RULE(Failures(s.notes, sequence) + 1,
                        ForwardDisposition(SaturatingIncrement(AttemptsOf(s.attempts, sequence)), true))
  {
    var s := PumpRun(limit, events);
    var sequence := s.tasks[e.task].sequence;
    GuardedLoad(limit, events, sequence);
    TallyRemove(s.tasks, IsForwarding(sequence), e.task);
    TallyNonNegative(s.tasks - {e.task}, IsForwarding(sequence));
    CountsExact(limit, events);
    assert CountOk(s, sequence);
  }

  predicate NoDeliveries(events: seq<PumpEvent>) {
    forall k :: 0 <= k < |events| ==> !events[k].Deliver?
  }

  lemma {:induction false} GuardedTail(limit: nat, events: seq<PumpEvent>, tail: seq<PumpEvent>)
    requires Guarded(limit, events) && NoDeliveries(tail)
    ensures Guarded(limit, events + tail)
    decreases |tail|
  {
    if tail == [] {
      assert events + tail == events;
    } else {
      var n := |tail| - 1;
      GuardedTail(limit, events, tail[..n]);
      assert (events + tail)[..|events| + n] == events + tail[..n];
    }
  }

  lemma {:induction false} GuardedPrefix(limit: nat, events: seq<PumpEvent>, i: nat)
    requires Guarded(limit, events) && i <= |events|
    ensures Guarded(limit, events[..i])
    decreases |events|
  {
    if i == |events| {
      assert events[..i] == events;
    } else {
      GuardedPrefix(limit, events[..|events| - 1], i);
      assert events[..|events| - 1][..i] == events[..i];
    }
  }

  // ----- an unguarded delivery lets the budget be overspent -----

  /** Four failures without a clearing in between leave their mark. */
  lemma {:induction false} FourthFailure(notes: seq<Note>, sequence: nat)
    requires Failures(notes, sequence) >= 4
    ensures !BudgetKept(notes)
    decreases |notes|
  {
    var n := |notes| - 1;
    if notes[n].sequence == sequence && notes[n].Failed? {
      assert notes[..n + 1] == notes;
      assert !FailureAt(notes, BUDGET_RULE, n);
    } else {
      FourthFailure(notes[..n], sequence);
      var i :| 0 <= i < n && !FailureAt(notes[..n], BUDGET_RULE, i);
      assert notes[..n][..i + 1] == notes[..i + 1];
      assert !FailureAt(notes, BUDGET_RULE, i);
    }
  }

  /** Four failures of the message are behind it or still possible, `n` of them in running forwards. */
  ghost predicate Overloaded(limit: nat, events: seq<PumpEvent>, sequence: nat, n: int) {
    var s := PumpRun(limit, events);
    Load(s, sequence) >= 4 && Tally(s.tasks, IsForwarding(sequence)) == n
  }

  ghost predicate Overspent(limit: nat, events: seq<PumpEvent>) { !BudgetKept(PumpRun(limit, events).notes) }

  /** Then a fourth failure is possible without any further delivery. */
  lemma {:induction false} Overspend(limit: nat, events: seq<PumpEvent>, sequence: nat, n: nat)
    returns (tail: seq<PumpEvent>)
    requires Overloaded(limit, events, sequence, n)
    ensures NoDeliveries(tail) && Overspent(limit, events + tail)
    decreases n
  {
    if n == 0 {
      FourthFailure(PumpRun(limit, events).notes, sequence);
      tail := [];
      assert events + tail == events;
    } else {
      var e := OneMoreFailure(limit, events, sequence, n);
      var rest := Overspend(limit, events + [e], sequence, n - 1);
      tail := [e] + rest;
      assert events + [e] + rest == events + tail;
    }
  }

  lemma OneMoreFailure(limit: nat, events: seq<PumpEvent>, sequence: nat, n: int) returns (e: PumpEvent)
    requires Overloaded(limit, events, sequence, n) && n > 0
    ensures !e.Deliver? && Overloaded(limit, events + [e], sequence, n - 1)
  {
    var s := PumpRun(limit, events);
    var task := SomeForward(s, sequence);
    e := Forwarded(task, false);
    RunOneMore(limit, events, e);
    ForwardedLoad(limit, s, e, sequence);
    ForwardedFailures(s, task, false, sequence);
  }

  lemma SomeForward(s: PumpState, sequence: nat) returns (task: nat)
    requires Tally(s.tasks, IsForwarding(sequence)) > 0
    ensures task in s.tasks && s.tasks[task].sequence == sequence && s.tasks[task].stage == Forwarding
  {
    if forall i :: i in s.tasks ==> IsForwarding(sequence)(s.tasks[i]) == 0 {
      TallyZero(s.tasks, IsForwarding(sequence));
    }
    task :| task in s.tasks && IsForwarding(sequence)(s.tasks[task]) != 0;
  }

  /** However the forwards already running turn out, the budget is kept. */
  ghost predicate CannotOverspend(limit: nat, events: seq<PumpEvent>) {
    forall tail :: NoDeliveries(tail) ==> BudgetKept(PumpRun(limit, events + tail).notes)
  }

  lemma {:induction false} SafeIsGuarded(limit: nat, events: seq<PumpEvent>)
    requires forall i :: 0 <= i <= |events| ==> CannotOverspend(limit, events[..i])
    ensures Guarded(limit, events)
  {
    if events != [] {
      var n := |events| - 1;
      var s, e := PumpRun(limit, events[..n]), events[n];
      assert forall i :: 0 <= i <= n ==> events[..n][..i] == events[..i];
      SafeIsGuarded(limit, events[..n]);
      assert events[..n + 1] == events;
      if Spawns(limit, s, e) {
        DeliverLoad(limit, s, e, e.sequence);
        if Load(PumpRun(limit, events), e.sequence) >= 4 {
          LoadOverspends(limit, events, e.sequence);
        }
      }
    }
  }

  lemma LoadOverspends(limit: nat, events: seq<PumpEvent>, sequence: nat)
    requires Load(PumpRun(limit, events), sequence) >= 4
    ensures !CannotOverspend(limit, events)
  {
    var tasks := PumpRun(limit, events).tasks;
    TallyNonNegative(tasks, IsForwarding(sequence));
    var tail := Overspend(limit, events, sequence, Tally(tasks, IsForwarding(sequence)));
  }

  /** A schedule of deliveries keeps the budget, however its forwards turn out at any point of it, exactly when no
      forward is started for a message whose failures and running forwards already make three. */
  lemma BudgetExactly(limit: nat, events: seq<PumpEvent>)
    ensures Guarded(limit, events) <==> forall i :: 0 <= i <= |events| ==> CannotOverspend(limit, events[..i])
  {
    if Guarded(limit, events) {
      forall i, tail | 0 <= i <= |events| && NoDeliveries(tail)
        ensures BudgetKept(PumpRun(limit, events[..i] + tail).notes)
      {
        GuardedPrefix(limit, events, i);
        GuardedTail(limit, events[..i], tail);
        GuardedBudget(limit, events[..i] + tail);
      }
    }
    if forall i :: 0 <= i <= |events| ==> CannotOverspend(limit, events[..i]) {
      SafeIsGuarded(limit, events);
    }
  }

  // ----- a schedule that overspends -----

  function Deliveries(n: nat): seq<PumpEvent> {
    if n == 0 then [] else Deliveries(n - 1) + [Deliver(n - 1, 7, Some("caller"))]
  }

  /** `n` tasks at work on one message. */
  ghost predicate Crowded(s: PumpState, n: nat) {
    && Count(s.gate.inflight, "caller") == n && Load(s, 7) == n
    && (forall i :: i in s.tasks <==> 0 <= i < n)
  }

  lemma OneMoreDelivery(s: PumpState, n: nat)
    requires Crowded(s, n) && n < 4
    ensures var e := Deliver(n, 7, Some("caller")); Enabled(s, e) && Crowded(PumpStep(4, s, e), n + 1)
  {
    DeliverLoad(4, s, Deliver(n, 7, Some("caller")), 7);
  }

  lemma {:induction false} ManyDeliveries(n: nat)
    requires n <= 4
    ensures Crowded(PumpRun(4, Deliveries(n)), n)
  {
    if n > 0 {
      ManyDeliveries(n - 1);
      RunOneMore(4, Deliveries(n - 1), Deliver(n - 1, 7, Some("caller")));
      OneMoreDelivery(PumpRun(4, Deliveries(n - 1)), n - 1);
    }
  }

  /** Four overlapping deliveries of one message can end in four failures. */
  lemma OverlapOverspends()
    ensures !Guarded(4, Deliveries(4)) && !CannotOverspend(4, Deliveries(4))
  {
    ManyDeliveries(4);
    LoadOverspends(4, Deliveries(4), 7);
    if Guarded(4, Deliveries(4)) {
      GuardedLoad(4, Deliveries(4), 7);
    }
  }
}
