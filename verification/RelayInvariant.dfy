/** What every reachable state of the recovery model satisfies, together with the history of
    provider sends, audited acceptances and published completions that led to it. */
module RelayInvariant {
  import opened Prelude
  import opened Relay

  /** An invocation under a grant. Pruning and fresh grants erase it from the state, never from the history. */
  type Call = (string, string)

  function IdentityOf(c: Call): string { Identity(c.0, c.1) }

  datatype History = History(sent: seq<Call>, accepted: set<Call>, published: set<Call>)

  const NO_HISTORY := History([], {}, {})

  /** What an observer of the provider and of the audit journal learns from one outcome. */
  function Observe(h: History, grant: string, e: Event, o: Outcome): History {
    var call := (grant, e.Invocation());
    if e.op == Send && o == ProviderSent then h.(sent := h.sent + [call])
    else if e.op == AcceptAudit && (o == Outcome.Audited || o == AuditAckLost) then
      h.(accepted := h.accepted + {call})
    else if e.op == PublishCompletion && (o == CompletionRecorded || o == AuditAckLost) then
      h.(published := h.published + {call})
    else h
  }

  /** The event raises an exception that leaves its work half done. */
  ghost predicate Halts(s: State, e: Event) {
    Step(s, e).outcome.Raised() && Step(s, e).state != s
  }

  /** The state and history after a sequence of events. The run goes on after an exception that changed nothing and ends
      before an event that halts. */
  ghost function Run(s: State, h: History, events: seq<Event>): (State, History)
    decreases |events|
  {
    if events == [] || Halts(s, events[0]) then (s, h)
    else
      var Reply(t, o) := Step(s, events[0]);
      Run(t, Observe(h, s.grantId, events[0], o), events[1..])
  }

  ghost predicate Reachable(s: State, h: History) {
    exists init, events: seq<Event> :: Started(init) && Run(init, NO_HISTORY, events) == (s, h)
  }

  predicate Started(s: State) {
    && LimitsInRange(s.slotLimit, s.metadataLimit, s.ageLimit)
    && s == Initial(s.epoch, s.expiresAt, s.grantId, s.keyId, s.slotLimit, s.metadataLimit, s.ageLimit)
  }

  /** Only one kind of event halts: a fresh grant that lacks nothing but its expiry. */
  lemma HaltsExactly(s: State, e: Event)
    ensures Halts(s, e) <==>
            e.op == FreshGrant && e.expiresAt.None?
            && Step(s, e.(expiresAt := Some(0))).outcome == FreshGrantInstalled
  {
    if OnReceipt(s, e) {
      assert Step(s, e) == StepReceipt(s, e);
    }
  }

  // ----- the ten ways a step that does not halt can change the state -----

  datatype Move =
    | Idle
    | ClaimMove(i: string, charge: int)
    | RestoreMove
    | ExchangeMove
    | PruneMove(i: string)
    | AcceptMove(i: string)
    | PublishMove(i: string)
    | SendMove(i: string)
    | PhaseMove(i: string)
    | FenceMove(i: string)

  /** `r` moves on to `n` without being audited, sent or published. */
  predicate NextPhase(audited: bool, r: Receipt, n: Receipt) {
    && n.owner == r.owner && n.fence == r.fence && n.ownerAlive == r.ownerAlive
    && n.sends == r.sends && n.reservedBytes == r.reservedBytes && r.ownerAlive
    && ( || (r.phase == Phase.Claimed && audited && n == r.(phase := Phase.Audited))
         || (r.phase == Phase.Audited && n == r.(phase := Intended, sendPermit := n.sendPermit))
         || (r.phase == Intended && n.terminalAt.Some?
             && n == r.(phase := Phase.Completed, sendPermit := false, outboxPending := true,
                        terminalAt := n.terminalAt)))
  }

  /** `r` loses its worker by a crash or a recovery. */
  predicate Orphaned(r: Receipt, n: Receipt) {
    || n == r.(ownerAlive := false, sendPermit := false)
    || (!Terminal(r.phase) && n.terminalAt.Some?
        && n == FencedOff(r).(phase := if r.phase == Intended then Phase.OutcomeUnknown else Phase.NotSent,
                              outboxPending := true, terminalAt := n.terminalAt))
  }

  ghost predicate IsIdleMove(s: State, h: History, t: State, k: History) {
    && k == h && (s.closed ==> t.closed) && s.epoch == t.epoch
    && t == s.(expiresAt := t.expiresAt, closed := t.closed, available := t.available)
  }

  ghost predicate IsClaimMove(i: string, charge: int, s: State, h: History, t: State, k: History) {
    && k == h && !s.closed && i !in s.receipts && i in t.receipts && 0 < charge
    && OutstandingTotal(s, Slot) < s.slotLimit
    && OutstandingTotal(s, Bytes) + charge <= s.metadataLimit
    && t.receipts[i] == Fresh(t.receipts[i].owner, charge)
    && t == s.(receipts := s.receipts[i := t.receipts[i]])
  }

  ghost predicate IsRestoreMove(s: State, h: History, t: State, k: History) {
    && k == h && s.epoch < t.epoch
    && t == s.(retiredKeys := s.retiredKeys + {s.keyId}, epoch := t.epoch, closed := true,
    receipts := FenceAll(s.receipts))
  }

  ghost predicate IsExchangeMove(s: State, h: History, t: State, k: History) {
    && k == h && s.closed && (forall i :: i in s.receipts ==> !Outstanding(s.receipts[i]))
    && t.grantId !in s.knownGrants && t.keyId !in s.retiredKeys
    && t == s.(retiredReceipts := s.retiredReceipts[s.grantId := s.receipts], grantId := t.grantId,
    keyId := t.keyId, knownGrants := s.knownGrants + {t.grantId}, expiresAt := t.expiresAt,
    receipts := map[], closed := false)
  }

  ghost predicate IsPruneMove(i: string, s: State, h: History, t: State, k: History) {
    && k == h && s.closed && i in s.receipts && !Outstanding(s.receipts[i])
    && t == s.(receipts := s.receipts - {i})
  }

  ghost predicate IsAcceptMove(i: string, s: State, h: History, t: State, k: History) {
    && i in s.receipts && i in t.receipts && k == h.(accepted := h.accepted + {(s.grantId, i)})
    && s.receipts[i].phase == Phase.Claimed && s.receipts[i].ownerAlive
    && (t.receipts[i] == s.receipts[i] || t.receipts[i] == s.receipts[i].(phase := Phase.Audited))
    && t == s.(acceptanceEvents := s.acceptanceEvents + {Identity(s.grantId, i)},
    receipts := s.receipts[i := t.receipts[i]])
  }

  ghost predicate IsPublishMove(i: string, s: State, h: History, t: State, k: History) {
    && i in s.receipts && i in t.receipts && k == h.(published := h.published + {(s.grantId, i)})
    && Terminal(s.receipts[i].phase) && s.receipts[i].outboxPending
    && t.receipts[i] == s.receipts[i].(outboxPending := t.receipts[i].outboxPending)
    && t == s.(completionEvents := s.completionEvents + {Identity(s.grantId, i)},
    receipts := s.receipts[i := t.receipts[i]])
  }

  ghost predicate IsSendMove(i: string, s: State, h: History, t: State, k: History) {
    && i in s.receipts && k == h.(sent := h.sent + [(s.grantId, i)])
    && !s.closed && s.receipts[i].ownerAlive && s.receipts[i].phase == Intended && s.receipts[i].sendPermit
    && t == s.(totalSends := s.totalSends + 1,
    receipts := s.receipts[i := s.receipts[i].(sendPermit := false, sends := s.receipts[i].sends + 1)])
  }

  ghost predicate IsPhaseMove(i: string, s: State, h: History, t: State, k: History) {
    && k == h && i in s.receipts && i in t.receipts
    && NextPhase(Identity(s.grantId, i) in s.acceptanceEvents, s.receipts[i], t.receipts[i])
    && t == s.(receipts := s.receipts[i := t.receipts[i]])
  }

  ghost predicate IsFenceMove(i: string, s: State, h: History, t: State, k: History) {
    && k == h && i in s.receipts && i in t.receipts && Orphaned(s.receipts[i], t.receipts[i])
    && t == s.(receipts := s.receipts[i := t.receipts[i]])
  }

  ghost predicate IsMove(m: Move, s: State, h: History, t: State, k: History) {
    match m
    case Idle => IsIdleMove(s, h, t, k)
    case ClaimMove(i, charge) => IsClaimMove(i, charge, s, h, t, k)
    case RestoreMove => IsRestoreMove(s, h, t, k)
    case ExchangeMove => IsExchangeMove(s, h, t, k)
    case PruneMove(i) => IsPruneMove(i, s, h, t, k)
    case AcceptMove(i) => IsAcceptMove(i, s, h, t, k)
    case PublishMove(i) => IsPublishMove(i, s, h, t, k)
    case SendMove(i) => IsSendMove(i, s, h, t, k)
    case PhaseMove(i) => IsPhaseMove(i, s, h, t, k)
    case FenceMove(i) => IsFenceMove(i, s, h, t, k)
  }

  /** Every step that does not halt is one of the moves. */
  lemma StepIsMove(s: State, h: History, e: Event) returns (m: Move)
    requires !Halts(s, e)
    ensures IsMove(m, s, h, Step(s, e).state, Observe(h, s.grantId, e, Step(s, e).outcome))
  {
    m := Idle;
    if !Step(s, e).outcome.Raised() {
      m := AnsweredIsMove(s, h, e);
    }
  }

  lemma AnsweredIsMove(s: State, h: History, e: Event) returns (m: Move)
    requires !Step(s, e).outcome.Raised()
    ensures IsMove(m, s, h, Step(s, e).state, Observe(h, s.grantId, e, Step(s, e).outcome))
  {
    var o := Step(s, e).outcome;
    var i := e.Invocation();
    m := Idle;
    if OnReceipt(s, e) {
      assert Step(s, e) == StepReceipt(s, e);
      if e.op == Crash || e.op == Recover {
        FenceStep(s, h, e);
        m := if o == StoreUnavailable || o == TerminalPreserved then Idle else FenceMove(i);
      } else if e.op == PublishCompletion {
        PublishStep(s, h, e);
        m := if o == CompletionRecorded || o == AuditAckLost then PublishMove(i) else Idle;
      } else if e.op == Prune {
        PruneStep(s, h, e);
        m := if o == Pruned then PruneMove(i) else Idle;
      } else {
        m := WorkerStep(s, h, e);
      }
    } else if e.op == Claim {
      ClaimStep(s, h, e);
      m := if o == Outcome.Claimed then ClaimMove(i, e.MetadataBytes()) else Idle;
    } else if e.op == Restore {
      m := if o == RestoreFenced then RestoreMove else Idle;
    } else if e.op == FreshGrant {
      m := if o == FreshGrantInstalled then ExchangeMove else Idle;
    }
  }

  /** The event gets as far as the receipt of its invocation. */
  predicate OnReceipt(s: State, e: Event) {
    && !(e.op == Availability || e.op == Restore || e.op == FreshGrant || e.op == Revoke || e.op == Expire
         || e.op == Renew || e.op == Claim)
    && e.grantId.GetOr(s.grantId) == s.grantId
    && e.keyId.GetOr(s.keyId) == s.keyId
    && e.Invocation() in s.receipts
  }

  lemma ClaimStep(s: State, h: History, e: Event)
    requires e.op == Claim && !Step(s, e).outcome.Raised()
    ensures var Reply(t, o) := Step(s, e);
            if o == Outcome.Claimed then IsClaimMove(e.Invocation(), e.MetadataBytes(), s, h, t, h) else t == s
  {
  }

  lemma FenceStep(s: State, h: History, e: Event)
    requires OnReceipt(s, e) && (e.op == Crash || e.op == Recover)
    ensures var Reply(t, o) := StepReceipt(s, e);
            if o == StoreUnavailable || o == TerminalPreserved then t == s
            else IsFenceMove(e.Invocation(), s, h, t, h)
  {
  }

  lemma PublishStep(s: State, h: History, e: Event)
    requires OnReceipt(s, e) && e.op == PublishCompletion
    ensures var Reply(t, o) := StepReceipt(s, e);
            if o == CompletionRecorded || o == AuditAckLost
            then IsPublishMove(e.Invocation(), s, h, t, Observe(h, s.grantId, e, o))
            else t == s
  {
  }

  lemma PruneStep(s: State, h: History, e: Event)
    requires OnReceipt(s, e) && e.op == Prune
    ensures var Reply(t, o) := StepReceipt(s, e);
            if o == Pruned then IsPruneMove(e.Invocation(), s, h, t, h) else t == s
  {
  }

  lemma WorkerStep(s: State, h: History, e: Event) returns (m: Move)
    requires OnReceipt(s, e)
    requires e.op != Crash && e.op != Recover && e.op != PublishCompletion && e.op != Prune
    requires !StepReceipt(s, e).outcome.Raised()
    ensures IsMove(m, s, h, StepReceipt(s, e).state, Observe(h, s.grantId, e, StepReceipt(s, e).outcome))
  {
    var i := e.Invocation();
    var r := s.receipts[i];
    if StepReceipt(s, e).state == s && !(e.op == AcceptAudit && StepReceipt(s, e).outcome == AuditAckLost) {
      return Idle;
    }
    assert StepReceipt(s, e) == StepWorker(s, e, r) && r.ownerAlive;
    if e.op == AcceptAudit {
      AcceptStep(s, h, e);
      m := AcceptMove(i);
    } else if e.op == Send {
      SendStep(s, h, e);
      m := SendMove(i);
    } else {
      PhaseStep(s, h, e);
      m := PhaseMove(i);
    }
  }

  lemma AcceptStep(s: State, h: History, e: Event)
    requires OnReceipt(s, e) && e.op == AcceptAudit && s.receipts[e.Invocation()].ownerAlive
    ensures var Reply(t, o) := StepWorker(s, e, s.receipts[e.Invocation()]);
            if o == Outcome.Audited || o == AuditAckLost
            then IsAcceptMove(e.Invocation(), s, h, t, Observe(h, s.grantId, e, o))
            else t == s
  {
    assert s.receipts[e.Invocation() := s.receipts[e.Invocation()]] == s.receipts;
  }

  lemma SendStep(s: State, h: History, e: Event)
    requires OnReceipt(s, e) && e.op == Send && s.receipts[e.Invocation()].ownerAlive
    ensures var Reply(t, o) := StepWorker(s, e, s.receipts[e.Invocation()]);
            if o == ProviderSent then IsSendMove(e.Invocation(), s, h, t, Observe(h, s.grantId, e, o)) else t == s
  {
  }

  lemma PhaseStep(s: State, h: History, e: Event)
    requires OnReceipt(s, e) && s.receipts[e.Invocation()].ownerAlive
    requires e.op == ReconcileAudit || e.op == Op.SendIntent || e.op == Complete
    ensures var t := StepWorker(s, e, s.receipts[e.Invocation()]).state;
            t == s || IsPhaseMove(e.Invocation(), s, h, t, h)
  {
  }

  // ----- one receipt -----

  predicate ReceiptOk(r: Receipt) {
    && r.fence >= 1 && r.reservedBytes > 0
    && 0 <= r.sends <= 1
    && (r.sendPermit ==> r.phase == Intended && r.sends == 0)
    && (r.sends == 1 ==> r.phase != Phase.Claimed && r.phase != Phase.Audited && r.phase != Phase.NotSent)
    && (r.outboxPending ==> Terminal(r.phase))
    && (r.terminalAt.Some? <==> Terminal(r.phase))
  }

  predicate Delivered(r: Receipt) {
    Terminal(r.phase) && !r.outboxPending
  }

  predicate PastAudit(r: Receipt) {
    r.phase == Phase.Audited || r.phase == Intended || r.phase == Phase.Completed || r.phase == Phase.OutcomeUnknown
  }

  // ----- the whole state -----

  ghost predicate GrantsOk(s: State) {
    && s.knownGrants == s.retiredReceipts.Keys + {s.grantId}
    && s.grantId !in s.retiredReceipts
    && (s.keyId in s.retiredKeys ==> s.closed)
  }

  /** The receipts of a retired grant are settled for good. */
  ghost predicate AllDelivered(receipts: map<string, Receipt>) {
    forall i :: i in receipts ==> ReceiptOk(receipts[i]) && Delivered(receipts[i])
  }

  ghost predicate ReceiptsOk(s: State) {
    && (forall i :: i in s.receipts ==> ReceiptOk(s.receipts[i]))
    && (forall g :: g in s.retiredReceipts ==> AllDelivered(s.retiredReceipts[g]))
  }

  ghost predicate QuotasOk(s: State) {
    && LimitsInRange(s.slotLimit, s.metadataLimit, s.ageLimit)
    && Tally(s.receipts, Slot) <= s.slotLimit
    && Tally(s.receipts, Bytes) <= s.metadataLimit
  }

  predicate NoRepeats<T(==)>(xs: seq<T>) {
    forall j, k :: 0 <= j < k < |xs| ==> xs[j] != xs[k]
  }

  ghost predicate SendsOk(s: State, h: History) {
    && s.totalSends == |h.sent| && NoRepeats(h.sent)
    && (forall c :: c in h.sent ==> c.0 in s.knownGrants && IdentityOf(c) in s.acceptanceEvents)
    && (forall i :: (s.grantId, i) in h.sent ==>
          if i in s.receipts then s.receipts[i].sends == 1 else s.closed)
    && (forall i :: i in s.receipts && s.receipts[i].sends == 1 ==> (s.grantId, i) in h.sent)
    && (forall g, i :: g in s.retiredReceipts && i in s.retiredReceipts[g] && s.retiredReceipts[g][i].sends == 1 ==>
          (g, i) in h.sent)
  }

  ghost predicate AcceptanceOk(s: State, h: History) {
    && (forall c :: c in h.accepted ==> c.0 in s.knownGrants && IdentityOf(c) in s.acceptanceEvents)
    && (forall id :: id in s.acceptanceEvents ==> exists c :: c in h.accepted && IdentityOf(c) == id)
    && (forall i :: i in s.receipts && PastAudit(s.receipts[i]) ==> Identity(s.grantId, i) in s.acceptanceEvents)
  }

  ghost predicate CompletionOk(s: State, h: History) {
    && (forall c :: c in h.published ==> c.0 in s.knownGrants && IdentityOf(c) in s.completionEvents)
    && (forall id :: id in s.completionEvents ==> exists c :: c in h.published && IdentityOf(c) == id)
    && (forall i :: (s.grantId, i) in h.published ==>
         if i in s.receipts then Terminal(s.receipts[i].phase) else s.closed)
    && (forall i :: i in s.receipts && Delivered(s.receipts[i]) ==> (s.grantId, i) in h.published)
    && (forall g, i :: g in s.retiredReceipts && i in s.retiredReceipts[g] ==> (g, i) in h.published)
  }

  ghost predicate Inv(s: State, h: History) {
    GrantsOk(s) && ReceiptsOk(s) && QuotasOk(s) && SendsOk(s, h) && AcceptanceOk(s, h) && CompletionOk(s, h)
  }

  // ----- retired receipts occupy nothing -----

  lemma RetiredOccupyNothing(s: State)
    requires ReceiptsOk(s)
    ensures OutstandingTotal(s, Slot) == Tally(s.receipts, Slot)
    ensures OutstandingTotal(s, Bytes) == Tally(s.receipts, Bytes)
  {
    forall g | g in s.retiredReceipts
      ensures PerGrant(Slot)(s.retiredReceipts[g]) == 0 && PerGrant(Bytes)(s.retiredReceipts[g]) == 0
    {
      TallyZero(s.retiredReceipts[g], Slot);
      TallyZero(s.retiredReceipts[g], Bytes);
    }
    TallyZero(s.retiredReceipts, PerGrant(Slot));
    TallyZero(s.retiredReceipts, PerGrant(Bytes));
  }

  // ----- preservation: the moves that touch many receipts, then those that replace one -----

  lemma IdleKeeps(s: State, h: History, t: State, k: History)
    requires Inv(s, h) && IsIdleMove(s, h, t, k)
    ensures Inv(t, k)
  {
  }

  lemma ClaimKeepsReceipts(i: string, charge: int, s: State, h: History, t: State, k: History)
    requires GrantsOk(s) && ReceiptsOk(s) && IsClaimMove(i, charge, s, h, t, k)
    ensures GrantsOk(t) && ReceiptsOk(t)
  {
    assert ReceiptOk(t.receipts[i]);
    assert t.retiredReceipts == s.retiredReceipts;
  }

  lemma ClaimKeepsQuotas(i: string, charge: int, s: State, h: History, t: State, k: History)
    requires ReceiptsOk(s) && QuotasOk(s) && IsClaimMove(i, charge, s, h, t, k)
    ensures QuotasOk(t)
  {
    RetiredOccupyNothing(s);
    TallySet(s.receipts, Slot, i, t.receipts[i]);
    TallySet(s.receipts, Bytes, i, t.receipts[i]);
  }

  lemma ClaimKeepsSends(i: string, charge: int, s: State, h: History, t: State, k: History)
    requires GrantsOk(s) && ReceiptsOk(s) && SendsOk(s, h) && IsClaimMove(i, charge, s, h, t, k)
    ensures SendsOk(t, k)
  {
    assert (s.grantId, i) !in h.sent;
  }

  lemma ClaimKeepsAcceptance(i: string, charge: int, s: State, h: History, t: State, k: History)
    requires GrantsOk(s) && AcceptanceOk(s, h) && IsClaimMove(i, charge, s, h, t, k)
    ensures AcceptanceOk(t, k)
  {
  }

  lemma ClaimKeepsCompletion(i: string, charge: int, s: State, h: History, t: State, k: History)
    requires GrantsOk(s) && ReceiptsOk(s) && CompletionOk(s, h) && IsClaimMove(i, charge, s, h, t, k)
    ensures CompletionOk(t, k)
  {
  }

  lemma RestoreKeepsReceipts(s: State, h: History, t: State, k: History)
    requires GrantsOk(s) && ReceiptsOk(s) && IsRestoreMove(s, h, t, k)
    ensures GrantsOk(t) && ReceiptsOk(t)
  {
  }

  lemma RestoreKeepsQuotas(s: State, h: History, t: State, k: History)
    requires ReceiptsOk(s) && QuotasOk(s) && IsRestoreMove(s, h, t, k)
    ensures QuotasOk(t)
  {
    TallySame(s.receipts, t.receipts, Slot);
    TallySame(s.receipts, t.receipts, Bytes);
  }

  lemma RestoreKeepsSends(s: State, h: History, t: State, k: History)
    requires GrantsOk(s) && ReceiptsOk(s) && SendsOk(s, h) && IsRestoreMove(s, h, t, k)
    ensures SendsOk(t, k)
  {
  }

  lemma RestoreKeepsAcceptance(s: State, h: History, t: State, k: History)
    requires GrantsOk(s) && AcceptanceOk(s, h) && IsRestoreMove(s, h, t, k)
    ensures AcceptanceOk(t, k)
  {
  }

  lemma RestoreKeepsCompletion(s: State, h: History, t: State, k: History)
    requires GrantsOk(s) && ReceiptsOk(s) && CompletionOk(s, h) && IsRestoreMove(s, h, t, k)
    ensures CompletionOk(t, k)
  {
  }

  lemma ExchangeKeepsReceipts(s: State, h: History, t: State, k: History)
    requires GrantsOk(s) && ReceiptsOk(s) && IsExchangeMove(s, h, t, k)
    ensures GrantsOk(t) && ReceiptsOk(t)
  {
  }

  lemma ExchangeKeepsQuotas(s: State, h: History, t: State, k: History)
    requires ReceiptsOk(s) && QuotasOk(s) && IsExchangeMove(s, h, t, k)
    ensures QuotasOk(t)
  {
  }

  lemma ExchangeKeepsSends(s: State, h: History, t: State, k: History)
    requires GrantsOk(s) && ReceiptsOk(s) && SendsOk(s, h) && IsExchangeMove(s, h, t, k)
    ensures SendsOk(t, k)
  {
  }

  lemma ExchangeKeepsAcceptance(s: State, h: History, t: State, k: History)
    requires GrantsOk(s) && AcceptanceOk(s, h) && IsExchangeMove(s, h, t, k)
    ensures AcceptanceOk(t, k)
  {
  }

  lemma ExchangeKeepsCompletion(s: State, h: History, t: State, k: History)
    requires GrantsOk(s) && ReceiptsOk(s) && CompletionOk(s, h) && IsExchangeMove(s, h, t, k)
    ensures CompletionOk(t, k)
  {
  }

  lemma PruneKeeps(i: string, s: State, h: History, t: State, k: History)
    requires Inv(s, h) && IsPruneMove(i, s, h, t, k)
    ensures Inv(t, k)
  {
    TallyRemove(s.receipts, Slot, i);
    TallyRemove(s.receipts, Bytes, i);
  }

  predicate OneReceipt(m: Move) {
    !m.Idle? && !m.ClaimMove? && !m.RestoreMove? && !m.ExchangeMove? && !m.PruneMove?
  }

  lemma ReceiptsKept(m: Move, s: State, h: History, t: State, k: History)
    requires OneReceipt(m) && IsMove(m, s, h, t, k)
    requires GrantsOk(s) && ReceiptsOk(s)
    ensures GrantsOk(t) && ReceiptsOk(t)
  {
  }

  lemma QuotasKept(m: Move, s: State, h: History, t: State, k: History)
    requires OneReceipt(m) && IsMove(m, s, h, t, k)
    requires ReceiptsOk(s) && QuotasOk(s)
    ensures QuotasOk(t)
  {
    TallySet(s.receipts, Slot, m.i, t.receipts[m.i]);
    TallySet(s.receipts, Bytes, m.i, t.receipts[m.i]);
  }

  lemma SendKeepsSends(i: string, s: State, h: History, t: State, k: History)
    requires IsSendMove(i, s, h, t, k)
    requires GrantsOk(s) && ReceiptsOk(s) && SendsOk(s, h) && AcceptanceOk(s, h)
    ensures SendsOk(t, k)
  {
  }

  lemma SendsKept(m: Move, s: State, h: History, t: State, k: History)
    requires OneReceipt(m) && IsMove(m, s, h, t, k)
    requires GrantsOk(s) && ReceiptsOk(s) && SendsOk(s, h) && AcceptanceOk(s, h)
    ensures SendsOk(t, k)
  {
    if m.SendMove? {
      SendKeepsSends(m.i, s, h, t, k);
    } else {
      assert k.sent == h.sent && t.totalSends == s.totalSends;
    }
  }

  lemma AcceptanceKept(m: Move, s: State, h: History, t: State, k: History)
    requires OneReceipt(m) && IsMove(m, s, h, t, k)
    requires GrantsOk(s) && ReceiptsOk(s) && AcceptanceOk(s, h)
    ensures AcceptanceOk(t, k)
  {
  }

  lemma PublishKeepsCompletion(i: string, s: State, h: History, t: State, k: History)
    requires IsPublishMove(i, s, h, t, k) && GrantsOk(s) && ReceiptsOk(s) && CompletionOk(s, h)
    ensures CompletionOk(t, k)
  {
  }

  /** Nothing is published, delivered or taken out of a terminal phase. */
  ghost predicate Quiet(s: State, h: History, t: State, k: History) {
    && k.published == h.published && t == s.(receipts := t.receipts, acceptanceEvents := t.acceptanceEvents,
                                             totalSends := t.totalSends)
    && t.receipts.Keys == s.receipts.Keys
    && forall i :: i in s.receipts ==>
         && (Terminal(s.receipts[i].phase) ==> Terminal(t.receipts[i].phase))
         && (Delivered(t.receipts[i]) ==> Delivered(s.receipts[i]))
  }

  lemma QuietKeeps(s: State, h: History, t: State, k: History)
    requires Quiet(s, h, t, k) && CompletionOk(s, h)
    ensures CompletionOk(t, k)
  {
  }

  lemma QuietMove(m: Move, s: State, h: History, t: State, k: History)
    requires OneReceipt(m) && !m.PublishMove? && IsMove(m, s, h, t, k)
    ensures Quiet(s, h, t, k)
  {
  }

  lemma CompletionKept(m: Move, s: State, h: History, t: State, k: History)
    requires OneReceipt(m) && IsMove(m, s, h, t, k)
    requires GrantsOk(s) && ReceiptsOk(s) && CompletionOk(s, h)
    ensures CompletionOk(t, k)
  {
    if m.PublishMove? {
      PublishKeepsCompletion(m.i, s, h, t, k);
    } else {
      QuietMove(m, s, h, t, k);
      QuietKeeps(s, h, t, k);
    }
  }

  lemma StepKeeps(s: State, h: History, e: Event)
    requires Inv(s, h) && !Halts(s, e)
    ensures Inv(Step(s, e).state, Observe(h, s.grantId, e, Step(s, e).outcome))
  {
    var t, k := Step(s, e).state, Observe(h, s.grantId, e, Step(s, e).outcome);
    var m := StepIsMove(s, h, e);
    match m
    case Idle => IdleKeeps(s, h, t, k);
    case ClaimMove(i, charge) =>
      ClaimKeepsReceipts(i, charge, s, h, t, k);
      ClaimKeepsQuotas(i, charge, s, h, t, k);
      ClaimKeepsSends(i, charge, s, h, t, k);
      ClaimKeepsAcceptance(i, charge, s, h, t, k);
      ClaimKeepsCompletion(i, charge, s, h, t, k);
    case RestoreMove =>
      RestoreKeepsReceipts(s, h, t, k);
      RestoreKeepsQuotas(s, h, t, k);
      RestoreKeepsSends(s, h, t, k);
      RestoreKeepsAcceptance(s, h, t, k);
      RestoreKeepsCompletion(s, h, t, k);
    case ExchangeMove =>
      ExchangeKeepsReceipts(s, h, t, k);
      ExchangeKeepsQuotas(s, h, t, k);
      ExchangeKeepsSends(s, h, t, k);
      ExchangeKeepsAcceptance(s, h, t, k);
      ExchangeKeepsCompletion(s, h, t, k);
    case PruneMove(i) => PruneKeeps(i, s, h, t, k);
    case _ =>
      ReceiptsKept(m, s, h, t, k);
      QuotasKept(m, s, h, t, k);
      SendsKept(m, s, h, t, k);
      AcceptanceKept(m, s, h, t, k);
      CompletionKept(m, s, h, t, k);
  }

  lemma {:induction false} RunKeeps(s: State, h: History, events: seq<Event>)
    requires Inv(s, h)
    ensures Inv(Run(s, h, events).0, Run(s, h, events).1)
    decreases |events|
  {
    if events != [] && !Halts(s, events[0]) {
      var Reply(t, o) := Step(s, events[0]);
      StepKeeps(s, h, events[0]);
      RunKeeps(t, Observe(h, s.grantId, events[0], o), events[1..]);
    }
  }

  /** Every reachable state satisfies the invariant. */
  lemma ReachableInv(s: State, h: History)
    requires Reachable(s, h)
    ensures Inv(s, h)
  {
    var init, events: seq<Event> :| Started(init) && Run(init, NO_HISTORY, events) == (s, h);
    RunKeeps(init, NO_HISTORY, events);
  }
}
