/** The recovery model seen from outside: an observer who knows only the events and their answers knows the state. */
module RelayView {
  import opened Prelude
  import opened Relay
  import opened RelayInvariant

  /** An event and what it was answered. */
  datatype Answer = Answer(event: Event, outcome: Outcome)

  ghost function Log(s: State, events: seq<Event>): seq<Answer>
    decreases |events|
  {
    if events == [] || Halts(s, events[0]) then []
    else [Answer(events[0], Step(s, events[0]).outcome)] + Log(Step(s, events[0]).state, events[1..])
  }

  // ----- what the answers tell -----

  /** The completion has waited for the age limit without being recorded. */
  predicate OverdueAt(r: Receipt, now: int, age: int) {
    r.outboxPending && r.terminalAt.Some? && r.terminalAt.value + age <= now
  }

  /** What an observer knows: whether the store is up and the grant open, the authority in force, the receipts of the
      grant, the backlog, the acceptances recorded, and what has been used up. */
  datatype View = View(
    up: bool,
    open: bool,
    expiry: int,
    epoch: int,
    grant: string,
    key: string,
    receipts: map<string, Receipt>,
    slots: int,
    bytes: int,
    accepted: set<string>,
    grants: set<string>,
    keys: set<string>)
  {
    // ----- what can be wrong with an event -----

    predicate EpochNotAhead(e: Event) { e.epoch.Some? && e.epoch.value <= epoch }

    predicate OtherEpoch(e: Event) { e.epoch.Some? && e.epoch.value != epoch }

    predicate OtherGrant(e: Event) { e.grantId.Some? && e.grantId.value != grant }

    predicate OtherKey(e: Event) { e.keyId.Some? && e.keyId.value != key }

    predicate UsedGrant(e: Event) { e.grantId.Some? && e.grantId.value in grants }

    predicate UsedKey(e: Event) { e.keyId.Some? && e.keyId.value in keys }

    /** The authority does not reach to the event: the grant is closed, has run out, or is not of the event's epoch. */
    predicate Lapsed(e: Event) { !open || expiry <= e.Now() || OtherEpoch(e) }

    predicate NoLaterExpiry(e: Event) { e.expiresAt.Some? && e.expiresAt.value <= expiry }

    /** Some completion has waited for the age limit without being recorded. */
    ghost predicate Overdue(e: Event, age: int) {
      exists j :: j in receipts && OverdueAt(receipts[j], e.Now(), age)
    }

    /** The receipt has come to its end. */
    predicate Final(e: Event) { e.Invocation() in receipts && Terminal(receipts[e.Invocation()].phase) }

    predicate NothingToPublish(e: Event) {
      e.Invocation() in receipts && !(Final(e) && receipts[e.Invocation()].outboxPending)
    }

    predicate Owing(e: Event) { e.Invocation() in receipts && (!Final(e) || receipts[e.Invocation()].outboxPending) }

    /** The event does not come from the living worker that owns the receipt, with its present fence. */
    predicate NotOwner(e: Event) {
      e.Invocation() in receipts
      && var r := receipts[e.Invocation()];
         !(r.ownerAlive && e.worker == Some(r.owner) && e.fence.GetOr(1) == r.fence)
    }

    function PhaseOf(e: Event): Phase {
      if e.Invocation() in receipts then receipts[e.Invocation()].phase else Phase.Claimed
    }

    predicate NoPermit(e: Event) { e.Invocation() in receipts && !receipts[e.Invocation()].sendPermit }
  }

  function ViewOnOpening(s: State): View {
    View(true, true, s.expiresAt, s.epoch, s.grantId, s.keyId, map[], 0, 0, {}, {s.grantId}, {})
  }

  /** The receipt loses its worker and the worker its permit. */
  function Lost(r: Receipt): Receipt { r.(ownerAlive := false, sendPermit := false) }

  /** The receipt comes to its end, which remains to be published. */
  function Ended(r: Receipt, phase: Phase, now: int): Receipt {
    r.(phase := phase, sendPermit := false, outboxPending := true, terminalAt := Some(now))
  }

  /** What an answer about the receipt's invocation makes of the receipt. */
  function ReceiptAfter(r: Receipt, a: Answer): Receipt {
    match a.outcome
    case OwnerCrashed => Lost(r)
    case NotSent => Ended(Lost(r), Phase.NotSent, a.event.Now()).(fence := r.fence + 1)
    case OutcomeUnknown => Ended(Lost(r), Phase.OutcomeUnknown, a.event.Now()).(fence := r.fence + 1)
    case CompletionRecorded => r.(outboxPending := false)
    case Audited => r.(phase := Phase.Audited)
    case SendIntent => r.(phase := Intended, sendPermit := true)
    case IntentAckLost => r.(phase := Intended, sendPermit := false)
    case ProviderSent => r.(sendPermit := false, sends := r.sends + 1)
    case Completed => Ended(r, Phase.Completed, a.event.Now())
    case TerminalAckLost => if a.event.Committed() then Ended(r, Phase.Completed, a.event.Now()) else r
    case _ => r
  }

  function ReceiptsAfter(receipts: map<string, Receipt>, a: Answer): map<string, Receipt> {
    var i := a.event.Invocation();
    match a.outcome
    case FreshGrantInstalled => map[]
    case RestoreFenced => map j | j in receipts :: Lost(receipts[j]).(fence := receipts[j].fence + 1)
    case Claimed =>
      receipts[i := Receipt(Phase.Claimed, a.event.worker.GetOr(""), 1, true, false, 0, false,
                            a.event.MetadataBytes(), None)]
    case Pruned => receipts - {i}
    case _ => if i in receipts then receipts[i := ReceiptAfter(receipts[i], a)] else receipts
  }

  predicate Closes(a: Answer) {
    a.outcome == RestoreFenced || (a.outcome == GrantClosed && (a.event.op == Revoke || a.event.op == Expire))
  }

  /** The acceptance was recorded, whether or not the worker learnt of it. */
  predicate Accepts(a: Answer) {
    a.event.op == AcceptAudit && (a.outcome == Outcome.Audited || a.outcome == AuditAckLost)
  }

  /** What the observer knows after one more answer. A claim adds to the backlog, a recorded completion takes away. */
  function ViewAfter(v: View, a: Answer): View {
    var e, o, i := a.event, a.outcome, a.event.Invocation();
    View(
      if o == Available then true else if o == Unavailable then false else v.up,
      if o == FreshGrantInstalled then true else if Closes(a) then false else v.open,
      if o == FreshGrantInstalled || o == Renewed then e.expiresAt.GetOr(v.expiry) else v.expiry,
      if o == RestoreFenced then e.epoch.GetOr(v.epoch) else v.epoch,
      if o == FreshGrantInstalled then e.grantId.GetOr(v.grant) else v.grant,
      if o == FreshGrantInstalled then e.keyId.GetOr(v.key) else v.key,
      ReceiptsAfter(v.receipts, a),
      if o == Outcome.Claimed then v.slots + 1 else if o == CompletionRecorded then v.slots - 1 else v.slots,
      if o == Outcome.Claimed then v.bytes + e.MetadataBytes()
      else if o == CompletionRecorded && i in v.receipts then v.bytes - v.receipts[i].reservedBytes
      else v.bytes,
      if Accepts(a) then v.accepted + {v.grant + ":" + i} else v.accepted,
      if o == FreshGrantInstalled then v.grants + {e.grantId.GetOr(v.grant)} else v.grants,
      if o == RestoreFenced then v.keys + {v.key} else v.keys)
  }

  /** What the observer knows after more answers. */
  function ViewFrom(v: View, log: seq<Answer>): View
    decreases |log|
  {
    if log == [] then v else ViewFrom(ViewAfter(v, log[0]), log[1..])
  }

  /** What the observer knows after all the answers since the opening. */
  function ViewIn(init: State, log: seq<Answer>): View { ViewFrom(ViewOnOpening(init), log) }

  /** The state as far as it can matter to an answer. */
  ghost function ViewOf(s: State): View {
    View(s.available, !s.closed, s.expiresAt, s.epoch, s.grantId, s.keyId, s.receipts, Tally(s.receipts, Slot),
         Tally(s.receipts, Bytes), s.acceptanceEvents, s.knownGrants, s.retiredKeys)
  }

  // ----- the observer is right -----

  /** The answer changes nothing. */
  predicate Refuses(a: Answer) {
    match a.outcome
    case GrantClosed => !Closes(a)
    case AuditAckLost => !Accepts(a)
    case TerminalAckLost => !a.event.Committed()
    case EpochNotAdvancing | FreshAuthorityRequired | RecoveryRequired | GrantMismatch | KeyMismatch | NotExpired
      | StoreUnavailable | RenewalNotExtending | EpochMismatch | Replay | TenantBacklogStale | TenantBacklogFull
      | TenantMetadataFull | NoReceipt | TerminalPreserved | NoPendingCompletion | AuditUnavailable | RetentionRequired
      | Fenced | PhaseRejected | AcceptanceNotConfirmed | AuthorityClosed | NoSendPermit | KeyError | ValueError => true
    case _ => false
  }

  lemma RefusalTellsNothing(v: View, a: Answer)
    requires Refuses(a)
    ensures ViewAfter(v, a) == v
  {
    var i := a.event.Invocation();
    if i in v.receipts {
      assert ReceiptAfter(v.receipts[i], a) == v.receipts[i];
      assert v.receipts[i := v.receipts[i]] == v.receipts;
    }
  }

  /** The observer stays right. */
  ghost predicate Foreseen(s: State, e: Event) {
    var Reply(t, o) := Step(s, e);
    ViewOf(t) == ViewAfter(ViewOf(s), Answer(e, o))
  }

  ghost predicate Refused(s: State, e: Event) {
    Step(s, e).state == s && Refuses(Answer(e, Step(s, e).outcome))
  }

  lemma RefusedForeseen(s: State, e: Event)
    requires Refused(s, e)
    ensures Foreseen(s, e)
  {
    RefusalTellsNothing(ViewOf(s), Answer(e, Step(s, e).outcome));
  }

  lemma SwitchForeseen(s: State, e: Event)
    requires e.op == Availability || e.op == Revoke || e.op == Expire
    ensures Foreseen(s, e)
  {
    var a := Answer(e, Step(s, e).outcome);
    if Refuses(a) {
      RefusedForeseen(s, e);
    } else if e.Invocation() in s.receipts {
      assert s.receipts[e.Invocation() := ReceiptAfter(s.receipts[e.Invocation()], a)] == s.receipts;
    }
  }

  lemma RenewForeseen(s: State, e: Event)
    requires e.op == Renew
    ensures Foreseen(s, e)
  {
    var a := Answer(e, Step(s, e).outcome);
    if Refuses(a) {
      RefusedForeseen(s, e);
    } else if e.Invocation() in s.receipts {
      assert s.receipts[e.Invocation() := ReceiptAfter(s.receipts[e.Invocation()], a)] == s.receipts;
    }
  }

  lemma RestoreForeseen(s: State, e: Event)
    requires e.op == Restore
    ensures Foreseen(s, e)
  {
    var o := Step(s, e).outcome;
    if Refuses(Answer(e, o)) {
      RefusedForeseen(s, e);
    } else {
      RestoreKeepsBacklog(s.receipts);
      RestoreReceipts(s.receipts, Answer(e, o));
    }
  }

  lemma RestoreReceipts(receipts: map<string, Receipt>, a: Answer)
    requires a.outcome == RestoreFenced
    ensures ReceiptsAfter(receipts, a) == FenceAll(receipts)
  {
  }

  lemma RestoreKeepsBacklog(receipts: map<string, Receipt>)
    ensures Tally(FenceAll(receipts), Slot) == Tally(receipts, Slot)
    ensures Tally(FenceAll(receipts), Bytes) == Tally(receipts, Bytes)
  {
    TallySame(receipts, FenceAll(receipts), Slot);
    TallySame(receipts, FenceAll(receipts), Bytes);
  }

  lemma NothingOwed(receipts: map<string, Receipt>)
    requires forall i :: i in receipts ==> !Outstanding(receipts[i])
    ensures Tally(receipts, Slot) == 0 && Tally(receipts, Bytes) == 0
  {
    TallyZero(receipts, Slot);
    TallyZero(receipts, Bytes);
  }

  lemma InstalledAnswer(v: View, a: Answer)
    requires a.outcome == FreshGrantInstalled && a.event.expiresAt.Some?
    requires a.event.grantId.Some? && a.event.keyId.Some?
    ensures ViewAfter(v, a)
         == v.(open := true, expiry := a.event.expiresAt.value, grant := a.event.grantId.value,
               key := a.event.keyId.value, receipts := map[], grants := v.grants + {a.event.grantId.value})
  {
  }

  lemma ExchangeForeseen(s: State, e: Event)
    requires e.op == FreshGrant && !Halts(s, e)
    ensures Foreseen(s, e)
  {
    var o := Step(s, e).outcome;
    if o != FreshGrantInstalled {
      RefusedForeseen(s, e);
    } else {
      NothingOwed(s.receipts);
      InstalledAnswer(ViewOf(s), Answer(e, o));
    }
  }

  lemma ClaimedAnswer(v: View, a: Answer)
    requires a.outcome == Outcome.Claimed && a.event.worker.Some?
    ensures ViewAfter(v, a)
         == v.(receipts := v.receipts[a.event.Invocation() := Fresh(a.event.worker.value, a.event.MetadataBytes())],
               slots := v.slots + 1, bytes := v.bytes + a.event.MetadataBytes())
  {
  }

  lemma ClaimTaken(s: State, e: Event)
    requires e.op == Claim && Step(s, e).outcome == Outcome.Claimed
    ensures e.worker.Some?
    ensures var n := Fresh(e.worker.value, e.MetadataBytes());
            && Step(s, e).state == s.(receipts := s.receipts[e.Invocation() := n])
            && Tally(s.receipts[e.Invocation() := n], Slot) == Tally(s.receipts, Slot) + 1
            && Tally(s.receipts[e.Invocation() := n], Bytes) == Tally(s.receipts, Bytes) + e.MetadataBytes()
  {
    assert e.Invocation() !in s.receipts;
    TallySet(s.receipts, Slot, e.Invocation(), Fresh(e.worker.value, e.MetadataBytes()));
    TallySet(s.receipts, Bytes, e.Invocation(), Fresh(e.worker.value, e.MetadataBytes()));
  }

  lemma ClaimRefused(s: State, e: Event)
    requires e.op == Claim && Step(s, e).outcome != Outcome.Claimed
    ensures Refused(s, e)
  {
  }

  lemma ClaimForeseen(s: State, e: Event)
    requires e.op == Claim
    ensures Foreseen(s, e)
  {
    if Step(s, e).outcome != Outcome.Claimed {
      ClaimRefused(s, e);
      RefusedForeseen(s, e);
    } else {
      ClaimTaken(s, e);
      ClaimedAnswer(ViewOf(s), Answer(e, Outcome.Claimed));
    }
  }

  /** An answer about one receipt. */
  predicate Personal(o: Outcome) {
    || o.OwnerCrashed? || o.NotSent? || o.OutcomeUnknown? || o.CompletionRecorded? || o.Audited? || o.SendIntent?
    || o.IntentAckLost? || o.ProviderSent? || o.Completed? || o.TerminalAckLost? || o.AuditAckLost?
  }

  lemma PersonalAnswer(v: View, a: Answer)
    requires Personal(a.outcome) && a.event.Invocation() in v.receipts
    ensures var i := a.event.Invocation();
            var r, recorded := v.receipts[i], a.outcome.CompletionRecorded?;
            ViewAfter(v, a)
            == v.(receipts := v.receipts[i := ReceiptAfter(r, a)],
                  slots := if recorded then v.slots - 1 else v.slots,
                  bytes := if recorded then v.bytes - r.reservedBytes else v.bytes,
                  accepted := if Accepts(a) then v.accepted + {v.grant + ":" + i} else v.accepted)
  {
  }

  /** One receipt is replaced, as the answer says. */
  lemma ReceiptForeseen(s: State, t: State, e: Event, o: Outcome)
    requires e.Invocation() in s.receipts && Personal(o)
    requires var i, n := e.Invocation(), ReceiptAfter(s.receipts[e.Invocation()], Answer(e, o));
             && t == s.(receipts := s.receipts[i := n], acceptanceEvents := t.acceptanceEvents,
                        completionEvents := t.completionEvents, totalSends := t.totalSends)
             && t.acceptanceEvents
                == (if Accepts(Answer(e, o)) then s.acceptanceEvents + {s.grantId + ":" + i} else s.acceptanceEvents)
             && (Outstanding(n) <==> Outstanding(s.receipts[i]) && !o.CompletionRecorded?)
             && (o.CompletionRecorded? ==> Outstanding(s.receipts[i]))
    ensures ViewOf(t) == ViewAfter(ViewOf(s), Answer(e, o))
  {
    var n := ReceiptAfter(s.receipts[e.Invocation()], Answer(e, o));
    PersonalAnswer(ViewOf(s), Answer(e, o));
    TallySet(s.receipts, Slot, e.Invocation(), n);
    TallySet(s.receipts, Bytes, e.Invocation(), n);
  }

  lemma CrashForeseen(s: State, e: Event)
    requires OnReceipt(s, e) && e.op == Crash
    ensures Foreseen(s, e)
  {
    assert Step(s, e) == StepReceipt(s, e);
    ReceiptForeseen(s, Step(s, e).state, e, Step(s, e).outcome);
  }

  lemma RecoverForeseen(s: State, e: Event)
    requires OnReceipt(s, e) && e.op == Recover
    ensures Foreseen(s, e)
  {
    assert Step(s, e) == StepReceipt(s, e);
    if !s.available || Terminal(s.receipts[e.Invocation()].phase) {
      RefusedForeseen(s, e);
    } else {
      ReceiptForeseen(s, Step(s, e).state, e, Step(s, e).outcome);
    }
  }

  lemma PublishForeseen(s: State, e: Event)
    requires OnReceipt(s, e) && e.op == PublishCompletion
    ensures Foreseen(s, e)
  {
    var o := Step(s, e).outcome;
    assert Step(s, e) == StepReceipt(s, e);
    if o.CompletionRecorded? {
      ReceiptForeseen(s, Step(s, e).state, e, o);
    } else {
      RefusalTellsNothing(ViewOf(s), Answer(e, o));
    }
  }

  lemma PruneForeseen(s: State, e: Event)
    requires OnReceipt(s, e) && e.op == Prune
    ensures Foreseen(s, e)
  {
    var o := Step(s, e).outcome;
    assert Step(s, e) == StepReceipt(s, e);
    if o != Pruned {
      RefusedForeseen(s, e);
    } else {
      TallyRemove(s.receipts, Slot, e.Invocation());
      TallyRemove(s.receipts, Bytes, e.Invocation());
      PrunedAnswer(ViewOf(s), Answer(e, o));
    }
  }

  lemma PrunedAnswer(v: View, a: Answer)
    requires a.outcome == Pruned
    ensures ViewAfter(v, a) == v.(receipts := v.receipts - {a.event.Invocation()})
  {
  }

  /** The operations on the grant in force. */
  predicate OnGrant(op: Op) { op != Availability && op != Restore && op != FreshGrant }

  /** The operations on a receipt of that grant. */
  predicate OnOneReceipt(op: Op) { OnGrant(op) && op != Revoke && op != Expire && op != Renew && op != Claim }

  /** The operations only the owner of the receipt may perform. */
  predicate ByWorker(op: Op) {
    OnOneReceipt(op) && op != Crash && op != Recover && op != PublishCompletion && op != Prune
  }

  lemma WorkerForeseen(s: State, e: Event)
    requires OnReceipt(s, e) && ByWorker(e.op)
    requires !Refused(s, e)
    ensures Foreseen(s, e)
  {
    var r := s.receipts[e.Invocation()];
    assert Step(s, e) == StepReceipt(s, e) == StepWorker(s, e, r);
    match e.op
    case AcceptAudit => AcceptForeseen(s, e);
    case SendIntent => SendingForeseen(s, e);
    case Send => SendingForeseen(s, e);
    case Complete => CompletionForeseen(s, e);
    case _ => ReconciledForeseen(s, e);
  }

  lemma SendingForeseen(s: State, e: Event)
    requires OnReceipt(s, e) && (e.op == Op.SendIntent || e.op == Send)
    requires Step(s, e) == StepWorker(s, e, s.receipts[e.Invocation()]) && !Refused(s, e)
    ensures Foreseen(s, e)
  {
    ReceiptForeseen(s, Step(s, e).state, e, Step(s, e).outcome);
  }

  lemma CompletionForeseen(s: State, e: Event)
    requires OnReceipt(s, e) && e.op == Complete
    requires Step(s, e) == StepWorker(s, e, s.receipts[e.Invocation()]) && !Refused(s, e)
    ensures Foreseen(s, e)
  {
    ReceiptForeseen(s, Step(s, e).state, e, Step(s, e).outcome);
  }

  lemma ReconciledForeseen(s: State, e: Event)
    requires OnReceipt(s, e) && (e.op == ReconcileAudit || e.op == UnknownOp)
    requires Step(s, e) == StepWorker(s, e, s.receipts[e.Invocation()]) && !Refused(s, e)
    ensures Foreseen(s, e)
  {
    ReceiptForeseen(s, Step(s, e).state, e, Step(s, e).outcome);
  }

  /** Recording an acceptance changes the journal, and the receipt if the worker learns of it. */
  lemma AcceptForeseen(s: State, e: Event)
    requires OnReceipt(s, e) && e.op == AcceptAudit && Step(s, e) == StepWorker(s, e, s.receipts[e.Invocation()])
    requires !Refused(s, e)
    ensures Foreseen(s, e)
  {
    var Reply(t, o) := Step(s, e);
    var r := s.receipts[e.Invocation()];
    assert o == AuditAckLost ==> s.receipts[e.Invocation() := r] == s.receipts;
    ReceiptForeseen(s, t, e, o);
  }

  lemma StepForeseen(s: State, e: Event)
    requires !Halts(s, e)
    ensures Foreseen(s, e)
  {
    if Refused(s, e) {
      RefusedForeseen(s, e);
    } else if OnReceipt(s, e) {
      ReceiptStepForeseen(s, e);
    } else {
      match e.op
      case Availability | Revoke | Expire => SwitchForeseen(s, e);
      case Restore => RestoreForeseen(s, e);
      case FreshGrant => ExchangeForeseen(s, e);
      case Renew => RenewForeseen(s, e);
      case Claim => ClaimForeseen(s, e);
      case _ => RefusedForeseen(s, e);
    }
  }

  lemma ReceiptStepForeseen(s: State, e: Event)
    requires OnReceipt(s, e) && !Refused(s, e)
    ensures Foreseen(s, e)
  {
    match e.op
    case Crash => CrashForeseen(s, e);
    case Recover => RecoverForeseen(s, e);
    case PublishCompletion => PublishForeseen(s, e);
    case Prune => PruneForeseen(s, e);
    case _ => WorkerForeseen(s, e);
  }

  // ----- runs -----

  lemma {:induction false} RunForeseen(s: State, h: History, events: seq<Event>)
    ensures ViewOf(Run(s, h, events).0) == ViewFrom(ViewOf(s), Log(s, events))
    decreases |events|
  {
    if events != [] && !Halts(s, events[0]) {
      var Reply(t, o) := Step(s, events[0]);
      StepForeseen(s, events[0]);
      RunForeseen(t, Observe(h, s.grantId, events[0], o), events[1..]);
    }
  }

  /** In every run from the opening, what can matter to the next answer is told by the answers so far. In particular the
      outstanding slots are the claims less the completions recorded, and the reserved bytes what was claimed less what
      was released. */
  lemma ObserverKnows(init: State, events: seq<Event>)
    requires Started(init)
    ensures ViewOf(Run(init, NO_HISTORY, events).0) == ViewIn(init, Log(init, events))
  {
    assert Tally(init.receipts, Slot) == 0 && Tally(init.receipts, Bytes) == 0;
    RunForeseen(init, NO_HISTORY, events);
  }
}
