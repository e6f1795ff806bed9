/** What the egress pump answers, told from what happened before. */
module EgressReplies {
  import opened Prelude
  import opened Gate
  import opened Egress
  import opened EgressRuns

  /** What has become of a task's forward: it runs, it succeeded, or it was the n-th failure of its message since the
      last clearing. */
  datatype Fate = Running | Succeeded | FailedNth(n: nat)

  /** The fate of the latest forward of a task, read off the events that took effect. */
  function FateOf(limit: nat, events: seq<PumpEvent>, task: nat): Fate {
    if events == [] then Running
    else
      var before, e := events[..|events| - 1], events[|events| - 1];
      if e.task != task || !Enabled(PumpRun(limit, before), e) then FateOf(limit, before, task)
      else
        match e
        case Deliver(_, _, _) => Running
        case Forwarded(_, ok) =>
          if ok then Succeeded
          else
            var s := PumpRun(limit, before);
            FailedNth(Failures(s.notes, s.tasks[task].sequence) + 1)
        case Settled(_, _) => FateOf(limit, before, task)
        case Left(_) => FateOf(limit, before, task)
  }

  /** A task settles by the fate of its forward. */
  ghost predicate StageTold(t: Task, fate: Fate) {
    match t.stage
    case Forwarding => fate == Running
    case Settling(d) => fate != Running && d == DispositionOf(fate)
    case Leaving => fate != Running
  }

  function DispositionOf(fate: Fate): Disposition {
    match fate
    case Running => Ack
    case Succeeded => Ack
    case FailedNth(n) => if n >= 3 then Term else Nak
  }

  lemma FateOneMore(limit: nat, events: seq<PumpEvent>, e: PumpEvent, task: nat)
    ensures var s, fate := PumpRun(limit, events), FateOf(limit, events, task);
            FateOf(limit, events + [e], task)
            == if e.task != task || !Enabled(s, e) then fate
               else match e
                    case Deliver(_, _, _) => Running
                    case Forwarded(_, ok) =>
                      if ok then Succeeded else FailedNth(Failures(s.notes, s.tasks[task].sequence) + 1)
                    case Settled(_, _) => fate
                    case Left(_) => fate
  {
    assert (events + [e])[..|events|] == events;
  }

  lemma {:induction false} StagesTold(limit: nat, events: seq<PumpEvent>, task: nat)
    requires task in PumpRun(limit, events).tasks
    ensures StageTold(PumpRun(limit, events).tasks[task], FateOf(limit, events, task))
  {
    var before, e := events[..|events| - 1], events[|events| - 1];
    assert events == before + [e];
    RunOneMore(limit, before, e);
    FateOneMore(limit, before, e, task);
    var s := PumpRun(limit, before);
    if task in s.tasks {
      StagesTold(limit, before, task);
      if Enabled(s, e) && e.task == task && e.Forwarded? && !e.ok {
        CountsExact(limit, before);
        assert CountOk(s, s.tasks[task].sequence);
      }
    }
  }

  /** In every run, what one more settlement notes: a forward that succeeded is acknowledged, and terminated as well
      exactly when the acknowledgement is not confirmed; a first or second failure is put off; a later one terminates.
      The count is cleared unless the message is put off. */
  lemma SettlementTold(limit: nat, events: seq<PumpEvent>, task: nat, confirmed: bool)
    requires var s := PumpRun(limit, events); task in s.tasks && s.tasks[task].stage.Settling?
    ensures var s := PumpRun(limit, events);
            var q, fate := s.tasks[task].sequence, FateOf(limit, events, task);
            && fate != Running
            && PumpRun(limit, events + [Settled(task, confirmed)]).notes
               == s.notes + match fate
                            case Running => []
                            case Succeeded =>
                              if confirmed then [Replied(q, AckReply), Cleared(q)]
                              else [Replied(q, AckReply), Replied(q, TermReply), Cleared(q)]
                            case FailedNth(n) =>
                              if n < 3 then [Replied(q, NakReply)] else [Replied(q, TermReply), Cleared(q)]
  {
    StagesTold(limit, events, task);
    RunOneMore(limit, events, Settled(task, confirmed));
  }

  /** What one more delivery notes: a message without an address is terminated, one whose caller has as many tasks as
      the limit allows is put off, and any other is given a task of its own and no answer yet. */
  lemma DeliveryTold(limit: nat, events: seq<PumpEvent>, task: nat, q: nat, caller: Option<Principal>)
    requires limit >= 1 && task !in PumpRun(limit, events).tasks
    ensures var s, after := PumpRun(limit, events), PumpRun(limit, events + [Deliver(task, q, caller)]);
            if caller.None? then after.notes == s.notes + [Replied(q, UnroutableReply)] && after.tasks == s.tasks
            else if Held(s.tasks, caller.value) == limit then
              after.notes == s.notes + [Replied(q, GateNakReply)] && after.tasks == s.tasks
            else after.notes == s.notes && after.tasks == s.tasks[task := Task(q, caller.value, Forwarding)]
  {
    RunOneMore(limit, events, Deliver(task, q, caller));
    RunAgrees(limit, events);
    var s := PumpRun(limit, events);
    if caller.Some? {
      assert Count(s.gate.inflight, caller.value) == s.gate.live[caller.value] == Held(s.tasks, caller.value);
    }
  }

  /** What the end of a forward notes: a failure, and how it will be settled. */
  lemma ForwardTold(limit: nat, events: seq<PumpEvent>, task: nat, ok: bool)
    requires var s := PumpRun(limit, events); task in s.tasks && s.tasks[task].stage == Forwarding
    ensures var s := PumpRun(limit, events);
            var q := s.tasks[task].sequence;
            PumpRun(limit, events + [Forwarded(task, ok)]).notes
            == if ok then s.notes else s.notes + [Failed(q, if Failures(s.notes, q) >= 2 then Term else Nak)]
  {
    RunOneMore(limit, events, Forwarded(task, ok));
    CountsExact(limit, events);
    assert CountOk(PumpRun(limit, events), PumpRun(limit, events).tasks[task].sequence);
  }

  /** And the end of a task notes nothing and takes away just that task. */
  lemma LeavingTold(limit: nat, events: seq<PumpEvent>, task: nat)
    requires var s := PumpRun(limit, events); task in s.tasks && s.tasks[task].stage == Leaving
    ensures var s, after := PumpRun(limit, events), PumpRun(limit, events + [Left(task)]);
            after.notes == s.notes && after.tasks == s.tasks - {task}
  {
    RunOneMore(limit, events, Left(task));
  }

  // ----- no message is put off without cause -----

  /** How often a note of the kind stands in the history. */
  function Times(notes: seq<Note>, note: Note): nat {
    if notes == [] then 0
    else Times(notes[..|notes| - 1], note) + (if notes[|notes| - 1] == note then 1 else 0)
  }

  lemma {:induction false} TimesConcat(a: seq<Note>, b: seq<Note>, note: Note)
    ensures Times(a + b, note) == Times(a, note) + Times(b, note)
    decreases |b|
  {
    if b == [] {
      assert a + b == a;
    } else {
      var n := |b| - 1;
      TimesConcat(a, b[..n], note);
      assert (a + b)[..|a + b| - 1] == a + b[..n];
    }
  }

  ghost function IsSettling(q: nat, d: Disposition): Task -> int {
    (t: Task) => if t.sequence == q && t.stage == Settling(d) then 1 else 0
  }

  lemma OneTime(notes: seq<Note>, more: Note, note: Note)
    ensures Times(notes + [more], note) == Times(notes, note) + (if more == note then 1 else 0)
  {
    assert (notes + [more])[..|notes|] == notes;
  }

  /** Failures to be put off, less those put off and those whose task is still to answer. */
  ghost function Balance(s: PumpState, q: nat): int {
    Times(s.notes, Failed(q, Nak)) - Times(s.notes, Replied(q, NakReply)) - Tally(s.tasks, IsSettling(q, Nak))
  }

  lemma NoteBalance(notes: seq<Note>, more: Note, q: nat)
    ensures Times(notes + [more], Failed(q, Nak)) - Times(notes + [more], Replied(q, NakReply))
         == Times(notes, Failed(q, Nak)) - Times(notes, Replied(q, NakReply))
            + (if more == Failed(q, Nak) then 1 else if more == Replied(q, NakReply) then -1 else 0)
  {
    OneTime(notes, more, Failed(q, Nak));
    OneTime(notes, more, Replied(q, NakReply));
  }

  lemma DeliverBalance(limit: nat, s: PumpState, e: PumpEvent, q: nat)
    requires e.Deliver? && Enabled(s, e)
    ensures Balance(PumpStep(limit, s, e), q) == Balance(s, q)
  {
    NoteBalance(s.notes, Replied(e.sequence, UnroutableReply), q);
    NoteBalance(s.notes, Replied(e.sequence, GateNakReply), q);
    if e.caller.Some? {
      TallySet(s.tasks, IsSettling(q, Nak), e.task, Task(e.sequence, e.caller.value, Forwarding));
    }
  }

  lemma ForwardBalance(limit: nat, s: PumpState, e: PumpEvent, q: nat)
    requires e.Forwarded? && Enabled(s, e)
    ensures Balance(PumpStep(limit, s, e), q) == Balance(s, q)
  {
    var after := PumpStep(limit, s, e);
    TallySet(s.tasks, IsSettling(q, Nak), e.task, after.tasks[e.task]);
    if !e.ok {
      NoteBalance(s.notes, after.notes[|s.notes|], q);
    }
  }

  lemma SettleBalance(limit: nat, s: PumpState, e: PumpEvent, q: nat)
    requires e.Settled? && Enabled(s, e)
    ensures Balance(PumpStep(limit, s, e), q) == Balance(s, q)
  {
    var t := s.tasks[e.task];
    var more := Ending(t.sequence, t.stage.disposition, e.confirmed);
    TallySet(s.tasks, IsSettling(q, Nak), e.task, t.(stage := Leaving));
    TimesConcat(s.notes, more, Failed(q, Nak));
    TimesConcat(s.notes, more, Replied(q, NakReply));
    EndingTimes(t.sequence, t.stage.disposition, e.confirmed, q);
  }

  lemma EndingTimes(p: nat, d: Disposition, confirmed: bool, q: nat)
    ensures Times(Ending(p, d, confirmed), Failed(q, Nak)) == 0
    ensures Times(Ending(p, d, confirmed), Replied(q, NakReply)) == if p == q && d == Nak then 1 else 0
  {
    var notes := Ending(p, d, confirmed);
    Absent(notes, Failed(q, Nak));
    if p == q && d == Nak {
      OneTime([], Replied(q, NakReply), Replied(q, NakReply));
      assert [] + [Replied(q, NakReply)] == notes;
    } else {
      Absent(notes, Replied(q, NakReply));
    }
  }

  lemma {:induction false} Absent(notes: seq<Note>, note: Note)
    requires forall k :: 0 <= k < |notes| ==> notes[k] != note
    ensures Times(notes, note) == 0
  {
    if notes != [] {
      Absent(notes[..|notes| - 1], note);
    }
  }

  lemma StepBalance(limit: nat, s: PumpState, e: PumpEvent, q: nat)
    requires Enabled(s, e)
    ensures Balance(PumpStep(limit, s, e), q) == Balance(s, q)
  {
    match e
    case Deliver(_, _, _) => DeliverBalance(limit, s, e, q);
    case Forwarded(_, _) => ForwardBalance(limit, s, e, q);
    case Settled(_, _) => SettleBalance(limit, s, e, q);
    case Left(task) => TallyRemove(s.tasks, IsSettling(q, Nak), task);
  }

  /** In every run a message has been put off by its tasks once for each of its failures that was to be put off, save
      those whose task is still to answer. */
  lemma {:induction false} PutOffsBalance(limit: nat, events: seq<PumpEvent>, q: nat)
    ensures var s := PumpRun(limit, events);
            Times(s.notes, Failed(q, Nak)) == Times(s.notes, Replied(q, NakReply)) + Tally(s.tasks, IsSettling(q, Nak))
  {
    if events != [] {
      var s, e := PumpRun(limit, events[..|events| - 1]), events[|events| - 1];
      PutOffsBalance(limit, events[..|events| - 1], q);
      if Enabled(s, e) {
        StepBalance(limit, s, e, q);
      }
    }
  }

  // ----- batches -----

  /** The messages delivered one after the other. */
  function DeliverAll(limit: nat, s: PumpState, items: seq<Item>): PumpState
    requires forall j :: 0 <= j < |items| ==> items[j].Message?
    decreases |items|
  {
    if items == [] then s
    else
      var d := items[0].delivery;
      DeliverAll(limit, DeliverStep(limit, s, d.task, d.sequence, d.caller), items[1..])
  }

  /** The message was given to a task, or its answer got through. */
  predicate Taken(s: PumpState, item: Item) {
    item.Message? && (item.delivery.task in s.tasks || item.delivery.acknowledged)
  }

  /** The batch was delivered up to `k` and ended there: at its end, at a stop, at a failed fetch, or after an answer
      that did not get through. */
  ghost predicate EndsAt(limit: nat, s: PumpState, batch: seq<Item>, r: BatchReply, k: nat) {
    && k <= |batch| && (forall j :: 0 <= j < k ==> batch[j].Message?)
    && r.state == DeliverAll(limit, s, batch[..k])
    && match r.error
       case None => (k == |batch| || batch[k].Shutdown?) && forall j :: 0 <= j < k ==> Taken(r.state, batch[j])
       case Some(FetchItem) =>
         k < |batch| && batch[k].FetchError? && forall j :: 0 <= j < k ==> Taken(r.state, batch[j])
       case Some(AckFailed) =>
         k > 0 && !Taken(r.state, batch[k - 1]) && forall j :: 0 <= j < k - 1 ==> Taken(r.state, batch[j])
  }

  lemma {:induction false} TasksStay(limit: nat, s: PumpState, batch: seq<Item>)
    ensures s.tasks.Keys <= DeliverBatch(limit, s, batch).state.tasks.Keys
    decreases |batch|
  {
    if batch != [] && batch[0].Message? {
      var d := batch[0].delivery;
      TasksStay(limit, DeliverStep(limit, s, d.task, d.sequence, d.caller), batch[1..]);
    }
  }

  /** Every batch is delivered in order up to where it ends, and ends for the reason the pump reports. */
  lemma {:induction false} BatchTold(limit: nat, s: PumpState, batch: seq<Item>) returns (k: nat)
    ensures EndsAt(limit, s, batch, DeliverBatch(limit, s, batch), k)
    decreases |batch|
  {
    if batch == [] || !batch[0].Message? {
      k := 0;
    } else {
      var d := batch[0].delivery;
      var next := DeliverStep(limit, s, d.task, d.sequence, d.caller);
      assert batch[..1] == [batch[0]] && [batch[0]][1..] == [];
      if !d.acknowledged && d.task !in next.tasks {
        k := 1;
      } else {
        var n := BatchTold(limit, next, batch[1..]);
        k := n + 1;
        TasksStay(limit, next, batch[1..]);
        assert batch[..k][1..] == batch[1..][..n] && batch[..k][0] == batch[0];
        EndsOneLater(limit, s, batch, next, n);
      }
    }
  }

  lemma EndsOneLater(limit: nat, s: PumpState, batch: seq<Item>, next: PumpState, n: nat)
    requires batch != [] && batch[0].Message? && Taken(next, batch[0])
    requires var d := batch[0].delivery; next == DeliverStep(limit, s, d.task, d.sequence, d.caller)
    requires var r := DeliverBatch(limit, next, batch[1..]);
             EndsAt(limit, next, batch[1..], r, n) && next.tasks.Keys <= r.state.tasks.Keys
    ensures EndsAt(limit, s, batch, DeliverBatch(limit, s, batch), n + 1)
  {
    var r := DeliverBatch(limit, next, batch[1..]);
    assert DeliverBatch(limit, s, batch) == r;
    assert forall j :: 0 < j <= n ==> batch[j] == batch[1..][j - 1];
    assert n + 1 < |batch| ==> batch[n + 1] == batch[1..][n];
    assert batch[..n + 1][1..] == batch[1..][..n];
  }
}
