/** The answers of the recovery model, foretold from the answers before. */
module RelayAnswers {
  import opened Prelude
  import opened Relay
  import opened RelayInvariant
  import opened RelayView

  datatype Limits = Limits(slots: int, bytes: int, age: int)

  /** The answer to an event that is not refused; an acknowledgement may be lost on its way to the worker. */
  function Granted(v: View, e: Event): Outcome {
    var acknowledged := e.acknowledged != Some(false);
    match e.op
    case Availability => if e.available == Some(true) then Available else Unavailable
    case Restore => RestoreFenced
    case FreshGrant => FreshGrantInstalled
    case Revoke => GrantClosed
    case Expire => GrantClosed
    case Renew => Renewed
    case Claim => Outcome.Claimed
    case Crash => OwnerCrashed
    case Recover =>
      if e.Invocation() in v.receipts && v.receipts[e.Invocation()].phase == Intended then Outcome.OutcomeUnknown
      else Outcome.NotSent
    case PublishCompletion => if acknowledged then CompletionRecorded else AuditAckLost
    case Prune => Pruned
    case AcceptAudit => if acknowledged then Outcome.Audited else AuditAckLost
    case ReconcileAudit => Outcome.Audited
    case SendIntent => if acknowledged then Outcome.SendIntent else IntentAckLost
    case Send => ProviderSent
    case Complete => if acknowledged then Outcome.Completed else TerminalAckLost
    case UnknownOp => ValueError
  }

  /** Why a fresh grant is refused: the first of these causes that is present. */
  ghost function ExchangeRefusal(v: View, limits: Limits, e: Event): Option<Outcome> {
    if e.epoch.None? then Some(KeyError)
    else if v.OtherEpoch(e) then Some(FreshAuthorityRequired)
    else if e.grantId.None? then Some(KeyError)
    else if v.UsedGrant(e) then Some(FreshAuthorityRequired)
    else if e.keyId.None? then Some(KeyError)
    else if v.UsedKey(e) then Some(FreshAuthorityRequired)
    else if v.open then Some(RecoveryRequired)
    else if v.slots > 0 then Some(RecoveryRequired)
    else if e.expiresAt.None? then Some(KeyError)
    else None
  }

  /** Why a claim under the grant in force is refused, likewise. */
  ghost function ClaimRefusal(v: View, limits: Limits, e: Event): Option<Outcome> {
    if !v.up then Some(StoreUnavailable)
    else if v.OtherEpoch(e) then Some(EpochMismatch)
    else if v.Lapsed(e) then Some(GrantClosed)
    else if e.Invocation() in v.receipts then Some(Replay)
    else if v.Overdue(e, limits.age) then Some(TenantBacklogStale)
    else if limits.slots <= v.slots then Some(TenantBacklogFull)
    else if e.MetadataBytes() <= 0 then Some(ValueError)
    else if limits.bytes < v.bytes + e.MetadataBytes() then Some(TenantMetadataFull)
    else if e.worker.None? then Some(KeyError)
    else None
  }

  /** Why an operation of its own kind is refused, once the event has been found to concern the grant and, where it
      takes one, the receipt and its owner: the first of its causes that is present. */
  ghost function OwnRefusal(v: View, limits: Limits, e: Event): Option<Outcome> {
    match e.op
    case Revoke => None
    case Crash => None
    case Expire => if e.Now() < v.expiry then Some(NotExpired) else None
    case Availability =>
      if e.available.None? then Some(KeyError)
      else None
    case Restore =>
      if e.epoch.None? then Some(KeyError)
      else if v.EpochNotAhead(e) then Some(EpochNotAdvancing)
      else None
    case FreshGrant => ExchangeRefusal(v, limits, e)
    case Renew =>
      if !v.up then Some(StoreUnavailable)
      else if v.Lapsed(e) then Some(GrantClosed)
      else if e.expiresAt.None? then Some(KeyError)
      else if v.NoLaterExpiry(e) then Some(RenewalNotExtending)
      else None
    case Claim => ClaimRefusal(v, limits, e)
    case Recover =>
      if !v.up then Some(StoreUnavailable)
      else if v.Final(e) then Some(TerminalPreserved)
      else None
    case PublishCompletion =>
      if v.NothingToPublish(e) then Some(NoPendingCompletion)
      else if e.auditAvailable == Some(false) then Some(AuditUnavailable)
      else None
    case Prune =>
      if !v.up then Some(StoreUnavailable)
      else if v.open then Some(RetentionRequired)
      else if e.Now() < v.expiry + 60 then Some(RetentionRequired)
      else if v.Owing(e) then Some(RetentionRequired)
      else None
    case AcceptAudit =>
      if v.PhaseOf(e) != Phase.Claimed then Some(PhaseRejected)
      else if e.auditAvailable == Some(false) then Some(AuditUnavailable)
      else None
    case ReconcileAudit =>
      if v.PhaseOf(e) != Phase.Claimed then Some(PhaseRejected)
      else if v.grant + ":" + e.Invocation() !in v.accepted then Some(AcceptanceNotConfirmed)
      else None
    case SendIntent =>
      if v.Lapsed(e) then Some(AuthorityClosed)
      else if v.PhaseOf(e) != Phase.Audited then Some(PhaseRejected)
      else None
    case Send =>
      if v.Lapsed(e) then Some(AuthorityClosed)
      else if v.NoPermit(e) then Some(NoSendPermit)
      else None
    case Complete =>
      if v.PhaseOf(e) != Intended then Some(PhaseRejected)
      else if e.committed == Some(false) then Some(TerminalAckLost)
      else None
    case UnknownOp =>
      Some(ValueError)
  }

  /** The answer that the observer expects. */
  ghost function Foretold(v: View, limits: Limits, e: Event): Outcome {
    if OnGrant(e.op) && v.OtherGrant(e) then GrantMismatch
    else if OnGrant(e.op) && v.OtherKey(e) then KeyMismatch
    else if OnOneReceipt(e.op) && e.Invocation() !in v.receipts then NoReceipt
    else if ByWorker(e.op) && v.NotOwner(e) then Fenced
    else if ByWorker(e.op) && !v.up then StoreUnavailable
    else OwnRefusal(v, limits, e).GetOr(Granted(v, e))
  }

  function LimitsOf(s: State): Limits { Limits(s.slotLimit, s.metadataLimit, s.ageLimit) }

  ghost predicate Answered(s: State, e: Event) {
    Step(s, e).outcome == Foretold(ViewOf(s), LimitsOf(s), e)
  }

  /** The operation itself is answered as foretold. */
  ghost predicate OwnAnswered(s: State, e: Event, o: Outcome) {
    o == OwnRefusal(ViewOf(s), LimitsOf(s), e).GetOr(Granted(ViewOf(s), e))
  }

  lemma SwitchAnswered(s: State, e: Event)
    requires e.op == Availability || e.op == Restore
    ensures Answered(s, e)
  {
  }

  lemma OwedExactly(receipts: map<string, Receipt>)
    ensures Tally(receipts, Slot) > 0 <==> exists i :: i in receipts && Outstanding(receipts[i])
  {
    if i :| i in receipts && Outstanding(receipts[i]) {
      TallyRemove(receipts, Slot, i);
      TallyNonNegative(receipts - {i}, Slot);
    } else {
      TallyZero(receipts, Slot);
    }
  }

  lemma OverdueExactly(s: State, h: History, now: int)
    requires Inv(s, h)
    ensures SomeStale(s, now) <==> exists j :: j in s.receipts && OverdueAt(s.receipts[j], now, s.ageLimit)
  {
    forall g | g in s.retiredReceipts
      ensures !AnyStale(s.retiredReceipts[g], now, s.ageLimit)
    {
      assert AllDelivered(s.retiredReceipts[g]);
    }
    if j :| j in s.receipts && OverdueAt(s.receipts[j], now, s.ageLimit) {
      assert Stale(s.receipts[j], now, s.ageLimit);
    }
    if i :| i in s.receipts && Stale(s.receipts[i], now, s.ageLimit) {
      assert OverdueAt(s.receipts[i], now, s.ageLimit);
    }
  }

  /** The event names authority that has not been used. */
  predicate NamesFresh(s: State, e: Event) {
    && e.epoch == Some(s.epoch) && e.grantId.Some? && e.grantId.value !in s.knownGrants
    && e.keyId.Some? && e.keyId.value !in s.retiredKeys
  }

  lemma ExchangeNotFresh(s: State, e: Event)
    requires e.op == FreshGrant && !NamesFresh(s, e)
    ensures OwnAnswered(s, e, StepFreshGrant(s, e).outcome)
  {
  }

  lemma ExchangeFresh(s: State, e: Event)
    requires e.op == FreshGrant && NamesFresh(s, e)
    requires Tally(s.receipts, Slot) > 0 <==> exists i :: i in s.receipts && Outstanding(s.receipts[i])
    ensures OwnAnswered(s, e, StepFreshGrant(s, e).outcome)
  {
  }

  lemma ExchangeAnswered(s: State, e: Event)
    requires e.op == FreshGrant
    requires Tally(s.receipts, Slot) > 0 <==> exists i :: i in s.receipts && Outstanding(s.receipts[i])
    ensures Answered(s, e)
  {
    if NamesFresh(s, e) {
      ExchangeFresh(s, e);
    } else {
      ExchangeNotFresh(s, e);
    }
  }

  lemma RenewAnswered(s: State, e: Event)
    requires e.op == Renew
    ensures OwnAnswered(s, e, StepRenew(s, e).outcome)
  {
  }

  /** The backlog as the observer counts it. */
  ghost predicate BacklogSeen(s: State, now: int) {
    && OutstandingTotal(s, Slot) == Tally(s.receipts, Slot)
    && OutstandingTotal(s, Bytes) == Tally(s.receipts, Bytes)
    && (SomeStale(s, now) <==> exists j :: j in s.receipts && OverdueAt(s.receipts[j], now, s.ageLimit))
  }

  lemma BacklogKnown(s: State, h: History, now: int)
    requires Inv(s, h)
    ensures BacklogSeen(s, now)
  {
    OverdueExactly(s, h, now);
    RetiredOccupyNothing(s);
  }

  lemma BacklogCauses(s: State, e: Event)
    requires BacklogSeen(s, e.Now())
    ensures var v, limits := ViewOf(s), LimitsOf(s);
            && (v.Overdue(e, limits.age) <==> SomeStale(s, e.Now()))
            && (limits.slots <= v.slots <==> OutstandingTotal(s, Slot) >= s.slotLimit)
            && (limits.bytes < v.bytes + e.MetadataBytes() <==>
                OutstandingTotal(s, Bytes) + e.MetadataBytes() > s.metadataLimit)
  {
  }

  /** The grant lets the claim through. */
  predicate Admits(s: State, e: Event) {
    s.available && e.epoch.GetOr(s.epoch) == s.epoch && !s.closed && e.Now() < s.expiresAt
    && e.Invocation() !in s.receipts
  }

  lemma ClaimNotAdmitted(s: State, e: Event)
    requires e.op == Claim && !Admits(s, e)
    ensures OwnAnswered(s, e, StepClaim(s, e).outcome)
  {
  }

  lemma ClaimAdmitted(s: State, e: Event)
    requires BacklogSeen(s, e.Now()) && e.op == Claim && Admits(s, e)
    ensures OwnAnswered(s, e, StepClaim(s, e).outcome)
  {
    BacklogCauses(s, e);
  }

  lemma RecoveryAnswered(s: State, e: Event)
    requires e.Invocation() in s.receipts && (e.op == Crash || e.op == Recover)
    ensures OwnAnswered(s, e, StepReceipt(s, e).outcome)
  {
  }

  lemma PublicationAnswered(s: State, e: Event)
    requires e.Invocation() in s.receipts && e.op == PublishCompletion
    ensures OwnAnswered(s, e, StepReceipt(s, e).outcome)
  {
  }

  lemma PruningAnswered(s: State, e: Event)
    requires e.Invocation() in s.receipts && e.op == Prune
    ensures OwnAnswered(s, e, StepReceipt(s, e).outcome)
  {
  }

  lemma AcceptanceAnswered(s: State, e: Event)
    requires e.Invocation() in s.receipts && (e.op == AcceptAudit || e.op == UnknownOp)
    ensures OwnAnswered(s, e, StepWorker(s, e, s.receipts[e.Invocation()]).outcome)
  {
  }

  lemma ReconciliationAnswered(s: State, e: Event)
    requires e.Invocation() in s.receipts && e.op == ReconcileAudit
    ensures OwnAnswered(s, e, StepWorker(s, e, s.receipts[e.Invocation()]).outcome)
  {
  }

  lemma IntentAnswered(s: State, e: Event)
    requires e.Invocation() in s.receipts && e.op == Op.SendIntent
    ensures OwnAnswered(s, e, StepWorker(s, e, s.receipts[e.Invocation()]).outcome)
  {
  }

  lemma SendingAnswered(s: State, e: Event)
    requires e.Invocation() in s.receipts && e.op == Send
    requires s.receipts[e.Invocation()].sendPermit ==> s.receipts[e.Invocation()].phase == Intended
    ensures OwnAnswered(s, e, StepWorker(s, e, s.receipts[e.Invocation()]).outcome)
  {
  }

  lemma CompletionAnswered(s: State, e: Event)
    requires e.Invocation() in s.receipts && e.op == Complete
    ensures OwnAnswered(s, e, StepWorker(s, e, s.receipts[e.Invocation()]).outcome)
  {
  }

  /** An event that has reached its receipt is answered as foretold if its own part is. */
  lemma ReceiptReached(s: State, e: Event)
    requires OnReceipt(s, e)
    requires if ByWorker(e.op) then OwnAnswered(s, e, StepWorker(s, e, s.receipts[e.Invocation()]).outcome)
             else OwnAnswered(s, e, StepReceipt(s, e).outcome)
    ensures Answered(s, e)
  {
    assert Step(s, e) == StepReceipt(s, e);
    if ByWorker(e.op) {
      OwnerChecked(s, e);
    }
  }

  lemma OnReceiptAnswered(s: State, e: Event)
    requires OnReceipt(s, e)
    requires s.receipts[e.Invocation()].sendPermit ==> s.receipts[e.Invocation()].phase == Intended
    ensures Answered(s, e)
  {
    match e.op {
      case Crash | Recover => RecoveryAnswered(s, e);
      case PublishCompletion => PublicationAnswered(s, e);
      case Prune => PruningAnswered(s, e);
      case _ => WorkAnswered(s, e);
    }
    ReceiptReached(s, e);
  }

  lemma WorkAnswered(s: State, e: Event)
    requires OnReceipt(s, e) && ByWorker(e.op)
    requires s.receipts[e.Invocation()].sendPermit ==> s.receipts[e.Invocation()].phase == Intended
    ensures OwnAnswered(s, e, StepWorker(s, e, s.receipts[e.Invocation()]).outcome)
  {
    match e.op
    case SendIntent => IntentAnswered(s, e);
    case Send => SendingAnswered(s, e);
    case Complete => CompletionAnswered(s, e);
    case ReconcileAudit => ReconciliationAnswered(s, e);
    case _ => AcceptanceAnswered(s, e);
  }

  /** The owner and the store are looked at first. */
  lemma OwnerChecked(s: State, e: Event)
    requires OnReceipt(s, e) && ByWorker(e.op)
    ensures var v, limits := ViewOf(s), LimitsOf(s);
            StepReceipt(s, e).outcome
            == if v.NotOwner(e) then Fenced
               else if !v.up then StoreUnavailable
               else StepWorker(s, e, s.receipts[e.Invocation()]).outcome
  {
  }

  lemma RenewingAnswered(s: State, e: Event)
    requires e.op == Renew
    ensures Answered(s, e)
  {
    RenewAnswered(s, e);
  }

  lemma ClosingAnswered(s: State, e: Event)
    requires e.op == Revoke || e.op == Expire
    ensures Answered(s, e)
  {
  }

  lemma ReceiptMissed(s: State, e: Event)
    requires OnOneReceipt(e.op) && !OnReceipt(s, e)
    ensures Answered(s, e)
  {
  }

  lemma ClaimingAnswered(s: State, e: Event)
    requires e.op == Claim && BacklogSeen(s, e.Now())
    ensures Answered(s, e)
  {
    if Admits(s, e) {
      ClaimAdmitted(s, e);
    } else {
      ClaimNotAdmitted(s, e);
    }
  }

  lemma StepAnswered(s: State, h: History, e: Event)
    requires Inv(s, h)
    ensures Answered(s, e)
  {
    if e.op == Availability || e.op == Restore {
      SwitchAnswered(s, e);
    } else if e.op == FreshGrant {
      OwedExactly(s.receipts);
      ExchangeAnswered(s, e);
    } else if e.op == Claim {
      BacklogKnown(s, h, e.Now());
      ClaimingAnswered(s, e);
    } else if OnReceipt(s, e) {
      assert ReceiptOk(s.receipts[e.Invocation()]);
      OnReceiptAnswered(s, e);
    } else {
      match e.op
      case Renew => RenewingAnswered(s, e);
      case Revoke | Expire => ClosingAnswered(s, e);
      case _ => ReceiptMissed(s, e);
    }
  }

  /** In every run, whatever has been answered so far determines the next answer: an event is refused for the first of
      its causes that is present, and granted when none is. */
  lemma AnswersForetold(init: State, events: seq<Event>, e: Event)
    requires Started(init)
    ensures Step(Run(init, NO_HISTORY, events).0, e).outcome
         == Foretold(ViewIn(init, Log(init, events)), LimitsOf(init), e)
  {
    var (s, h) := Run(init, NO_HISTORY, events);
    ObserverKnows(init, events);
    assert Reachable(s, h);
    ReachableInv(s, h);
    LimitsStay(init, NO_HISTORY, events);
    StepAnswered(s, h, e);
  }

  lemma {:induction false} LimitsStay(s: State, h: History, events: seq<Event>)
    ensures LimitsOf(Run(s, h, events).0) == LimitsOf(s)
    decreases |events|
  {
    if events != [] && !Halts(s, events[0]) {
      var Reply(t, o) := Step(s, events[0]);
      LimitsKept(s, events[0]);
      LimitsStay(t, Observe(h, s.grantId, events[0], o), events[1..]);
    }
  }

  lemma LimitsKept(s: State, e: Event)
    ensures LimitsOf(Step(s, e).state) == LimitsOf(s)
  {
  }
}
