/** The failure counts, their dispositions and the permits over all runs of the egress pump. */
module EgressRuns {
  import opened Prelude
  import opened Gate
  import opened Egress

  /** The state after the events, in any interleaving; an event that cannot happen changes nothing. */
  function PumpRun(limit: nat, events: seq<PumpEvent>): PumpState {
    if events == [] then IDLE
    else
      var s, e := PumpRun(limit, events[..|events| - 1]), events[|events| - 1];
      if Enabled(s, e) then PumpStep(limit, s, e) else s
  }

  lemma RunOneMore(limit: nat, events: seq<PumpEvent>, e: PumpEvent)
    ensures PumpRun(limit, events + [e])
         == if Enabled(PumpRun(limit, events), e) then PumpStep(limit, PumpRun(limit, events), e)
            else PumpRun(limit, events)
  {
    assert (events + [e])[..|events|] == events;
  }

  // ----- reading the history -----

  /** Failed forwards of a sequence since its count was last cleared. */
  function Failures(notes: seq<Note>, sequence: nat): nat {
    if notes == [] then 0
    else
      var last, before := notes[|notes| - 1], Failures(notes[..|notes| - 1], sequence);
      if last.sequence != sequence then before
      else if last.Failed? then before + 1
      else if last.Cleared? then 0
      else before
  }

  function LastReply(notes: seq<Note>, sequence: nat): Option<Reply> {
    if notes == [] then None
    else
      var last := notes[|notes| - 1];
      if last.sequence == sequence && last.Replied? then Some(last.reply)
      else LastReply(notes[..|notes| - 1], sequence)
  }

  lemma OneNote(notes: seq<Note>, note: Note, sequence: nat)
    ensures Failures(notes + [note], sequence)
         == if note.sequence != sequence || note.Replied? then Failures(notes, sequence)
            else if note.Failed? then Failures(notes, sequence) + 1
            else 0
    ensures LastReply(notes + [note], sequence)
         == if note.sequence == sequence && note.Replied? then Some(note.reply) else LastReply(notes, sequence)
  {
  }

  lemma EndingNotes(notes: seq<Note>, sequence: nat, d: Disposition, confirmed: bool, other: nat)
    ensures var after := notes + Ending(sequence, d, confirmed);
            && (other != sequence ==>
                  Failures(after, other) == Failures(notes, other)
                    && LastReply(after, other) == LastReply(notes, other))
            && (other == sequence ==> Failures(after, other) == if d == Nak then Failures(notes, other) else 0)
            && (other == sequence && d == Nak ==> LastReply(after, other) == Some(NakReply))
            && (LastReply(after, other) == Some(UnroutableReply) ==> LastReply(notes, other) == Some(UnroutableReply))
  {
    match d
    case Nak =>
      OneNote(notes, Replied(sequence, NakReply), other);
    case Term =>
      OneNote(notes, Replied(sequence, TermReply), other);
      OneNote(notes + [Replied(sequence, TermReply)], Cleared(sequence), other);
      assert notes + Ending(sequence, d, confirmed) == notes + [Replied(sequence, TermReply)] + [Cleared(sequence)];
    case Ack =>
      var acked := notes + [Replied(sequence, AckReply)];
      OneNote(notes, Replied(sequence, AckReply), other);
      if confirmed {
        OneNote(acked, Cleared(sequence), other);
        assert notes + Ending(sequence, d, confirmed) == acked + [Cleared(sequence)];
      } else {
        OneNote(acked, Replied(sequence, TermReply), other);
        OneNote(acked + [Replied(sequence, TermReply)], Cleared(sequence), other);
        assert notes + Ending(sequence, d, confirmed) == acked + [Replied(sequence, TermReply)] + [Cleared(sequence)];
      }
  }

  // ----- counts -----

  /** The count as far as 32 bits go. */
  function Capped(n: nat): nat { if n < 0x1_0000_0000 then n else 0xFFFF_FFFF }

  /** The count kept for a sequence is that of its failures since the last clearing, as far as 32 bits go. */
  predicate CountOk(s: PumpState, sequence: nat) {
    var n := Failures(s.notes, sequence);
    AttemptsOf(s.attempts, sequence) == Capped(n) && (sequence in s.attempts <==> n > 0)
  }

  ghost predicate CountsOk(s: PumpState) { forall sequence :: CountOk(s, sequence) }

  /** Deliveries, gate refusals among them, leave every count as it is. */
  lemma DeliveriesKeepCounts(limit: nat, s: PumpState, task: nat, sequence: nat, caller: Option<Principal>, other: nat)
    ensures DeliverStep(limit, s, task, sequence, caller).attempts == s.attempts
    ensures Failures(DeliverStep(limit, s, task, sequence, caller).notes, other) == Failures(s.notes, other)
  {
    OneNote(s.notes, Replied(sequence, UnroutableReply), other);
    OneNote(s.notes, Replied(sequence, GateNakReply), other);
  }

  lemma ForwardedFailures(s: PumpState, task: nat, ok: bool, other: nat)
    requires task in s.tasks
    ensures Failures(ForwardedStep(s, task, ok).notes, other)
         == Failures(s.notes, other) + (if !ok && s.tasks[task].sequence == other then 1 else 0)
  {
    if !ok {
      var note := ForwardedStep(s, task, ok).notes[|s.notes|];
      OneNote(s.notes, note, other);
    }
  }

  lemma SettledFailures(s: PumpState, task: nat, confirmed: bool, other: nat)
    requires task in s.tasks && s.tasks[task].stage.Settling?
    ensures Failures(SettledStep(s, task, confirmed).notes, other)
         == if s.tasks[task].sequence == other && s.tasks[task].stage.disposition != Nak then 0
            else Failures(s.notes, other)
  {
    var t := s.tasks[task];
    EndingNotes(s.notes, t.sequence, t.stage.disposition, confirmed, other);
  }

  lemma StepCounts(limit: nat, s: PumpState, e: PumpEvent, sequence: nat)
    requires Enabled(s, e) && CountOk(s, sequence)
    ensures CountOk(PumpStep(limit, s, e), sequence)
  {
    match e
    case Deliver(task, q, caller) => DeliveriesKeepCounts(limit, s, task, q, caller, sequence);
    case Forwarded(task, ok) => ForwardedFailures(s, task, ok, sequence);
    case Settled(task, confirmed) => SettledFailures(s, task, confirmed, sequence);
    case Left(_) =>
  }

  /** In every run, overlapping or not, each count is the number of failed forwards of its sequence since the last
      clearing, up to the 32-bit bound. Gate refusals and all other replies leave it alone. */
  lemma {:induction false} CountsExact(limit: nat, events: seq<PumpEvent>)
    ensures CountsOk(PumpRun(limit, events))
  {
    if events != [] {
      var s, e := PumpRun(limit, events[..|events| - 1]), events[|events| - 1];
      CountsExact(limit, events[..|events| - 1]);
      if Enabled(s, e) {
        forall sequence
          ensures CountOk(PumpStep(limit, s, e), sequence)
        {
          StepCounts(limit, s, e, sequence);
        }
      }
    }
  }

  // ----- dispositions -----

  /** What is asked of a failure: how many there are since the last clearing, itself included, and its disposition. */
  type Rule = (nat, Disposition) -> bool

  predicate FailureAt(notes: seq<Note>, rule: Rule, i: nat)
    requires i < |notes|
  {
    notes[i].Failed? ==> rule(Failures(notes[..i + 1], notes[i].sequence), notes[i].disposition)
  }

  ghost predicate AllFailures(notes: seq<Note>, rule: Rule) {
    forall i :: 0 <= i < |notes| ==> FailureAt(notes, rule, i)
  }

  lemma OneFailureMore(notes: seq<Note>, rule: Rule, note: Note)
    requires AllFailures(notes, rule)
    requires note.Failed? ==> rule(Failures(notes, note.sequence) + 1, note.disposition)
    ensures AllFailures(notes + [note], rule)
  {
    var all := notes + [note];
    forall i | 0 <= i < |all|
      ensures FailureAt(all, rule, i)
    {
      if i < |notes| {
        assert FailureAt(notes, rule, i) && all[..i + 1] == notes[..i + 1];
      } else {
        assert all[..i + 1] == all;
        OneNote(notes, note, note.sequence);
      }
    }
  }

  lemma {:induction false} NoFailureMore(notes: seq<Note>, rule: Rule, more: seq<Note>)
    requires AllFailures(notes, rule) && forall k :: 0 <= k < |more| ==> !more[k].Failed?
    ensures AllFailures(notes + more, rule)
    decreases |more|
  {
    if more == [] {
      assert notes + more == notes;
    } else {
      OneFailureMore(notes, rule, more[0]);
      NoFailureMore(notes + [more[0]], rule, more[1..]);
      assert notes + [more[0]] + more[1..] == notes + more;
    }
  }

  /** A step keeps a rule that the failure it may add obeys. */
  lemma StepFailures(limit: nat, s: PumpState, e: PumpEvent, rule: Rule)
    requires Enabled(s, e) && AllFailures(s.notes, rule)
    requires e.Forwarded? && !e.ok ==>
               var t := s.tasks[e.task];
               rule(Failures(s.notes, t.sequence) + 1,
                    ForwardDisposition(SaturatingIncrement(AttemptsOf(s.attempts, t.sequence)), true))
    ensures AllFailures(PumpStep(limit, s, e).notes, rule)
  {
    match e
    case Deliver(_, sequence, _) =>
      OneFailureMore(s.notes, rule, Replied(sequence, UnroutableReply));
      OneFailureMore(s.notes, rule, Replied(sequence, GateNakReply));
    case Forwarded(task, ok) =>
      if !ok {
        OneFailureMore(s.notes, rule, ForwardedStep(s, task, ok).notes[|s.notes|]);
      }
    case Settled(task, confirmed) =>
      NoFailureMore(s.notes, rule, Ending(s.tasks[task].sequence, s.tasks[task].stage.disposition, confirmed));
    case Left(_) =>
  }

  /** A failure terminates exactly when it is at least the third since the last clearing. */
  const TERM_RULE: Rule := (n: nat, d: Disposition) => d == if n >= 3 then Term else Nak

  lemma {:induction false} TermsExact(limit: nat, events: seq<PumpEvent>)
    ensures AllFailures(PumpRun(limit, events).notes, TERM_RULE)
  {
    if events != [] {
      var s, e := PumpRun(limit, events[..|events| - 1]), events[|events| - 1];
      TermsExact(limit, events[..|events| - 1]);
      CountsExact(limit, events[..|events| - 1]);
      if Enabled(s, e) {
        assert e.Forwarded? ==> CountOk(s, s.tasks[e.task].sequence);
        StepFailures(limit, s, e, TERM_RULE);
      }
    }
  }

  /** In every run a failure from the third on is answered with a termination, and settling it clears the count. */
  lemma ThirdFailureEnds(limit: nat, events: seq<PumpEvent>, task: nat, confirmed: bool)
    requires var s := PumpRun(limit, events);
             task in s.tasks && s.tasks[task].stage == Forwarding && Failures(s.notes, s.tasks[task].sequence) >= 2
    ensures var sequence := PumpRun(limit, events).tasks[task].sequence;
            var failed := ForwardedStep(PumpRun(limit, events), task, false);
            && failed.tasks[task].stage == Settling(Term)
            && var ended := SettledStep(failed, task, confirmed);
               && ended.notes == failed.notes + [Replied(sequence, TermReply), Cleared(sequence)]
               && sequence !in ended.attempts && Failures(ended.notes, sequence) == 0
  {
    var s := PumpRun(limit, events);
    CountsExact(limit, events);
    assert CountOk(s, s.tasks[task].sequence);
    SettledFailures(ForwardedStep(s, task, false), task, confirmed, s.tasks[task].sequence);
  }

  // ----- permits -----

  /** Every counter of the gate is the number of the caller's running tasks. */
  ghost predicate GateAgrees(limit: nat, s: PumpState) {
    Exact(limit, s.gate) && PermitsHeld(s.gate.live, s.tasks)
  }

  lemma DeliverAgrees(limit: nat, s: PumpState, task: nat, sequence: nat, caller: Option<Principal>)
    requires limit >= 1 && GateAgrees(limit, s) && task !in s.tasks
    ensures GateAgrees(limit, DeliverStep(limit, s, task, sequence, caller))
  {
    if caller.Some? {
      StepExact(limit, s.gate, Acquire(caller.value));
      HeldOneMore(s.gate.live, s.tasks, task, Task(sequence, caller.value, Forwarding));
    }
  }

  lemma LeftAgrees(limit: nat, s: PumpState, task: nat)
    requires limit >= 1 && GateAgrees(limit, s) && task in s.tasks
    ensures GateAgrees(limit, LeftStep(limit, s, task))
  {
    HeldOneLess(s.gate.live, s.tasks, task);
    StepExact(limit, s.gate, Drop(s.tasks[task].caller));
  }

  lemma StepAgrees(limit: nat, s: PumpState, e: PumpEvent)
    requires limit >= 1 && GateAgrees(limit, s) && Enabled(s, e)
    ensures GateAgrees(limit, PumpStep(limit, s, e))
  {
    match e
    case Deliver(task, sequence, caller) => DeliverAgrees(limit, s, task, sequence, caller);
    case Forwarded(task, ok) => HeldRestaged(s.gate.live, s.tasks, task, ForwardedStep(s, task, ok).tasks[task].stage);
    case Settled(task, _) => HeldRestaged(s.gate.live, s.tasks, task, Leaving);
    case Left(task) => LeftAgrees(limit, s, task);
  }

  /** In every run no caller has more running tasks than the limit, and the gate counts them exactly. */
  lemma {:induction false} RunAgrees(limit: nat, events: seq<PumpEvent>)
    requires limit >= 1
    ensures GateAgrees(limit, PumpRun(limit, events))
    ensures forall caller :: Held(PumpRun(limit, events).tasks, caller) <= limit
  {
    if events == [] {
      forall caller
        ensures Held(map[], caller) == 0
      {
      }
    } else {
      var s, e := PumpRun(limit, events[..|events| - 1]), events[|events| - 1];
      RunAgrees(limit, events[..|events| - 1]);
      if Enabled(s, e) {
        StepAgrees(limit, s, e);
      }
    }
    var s := PumpRun(limit, events);
    forall caller
      ensures Held(s.tasks, caller) <= limit
    {
      assert s.gate.live[caller] == Held(s.tasks, caller) && Count(s.gate.inflight, caller) == s.gate.live[caller];
    }
  }
}
