/** Safety of the recovery model over whole runs: at-most-once sends, audit before send, delivered
    completions, tenant quotas, and fencing. */
module RelaySafety {
  import opened Relay
  import opened RelayInvariant

  // ----- at most once -----

  lemma {:induction false} DistinctCount<T>(xs: seq<T>)
    requires NoRepeats(xs)
    ensures |set x | x in xs| == |xs|
  {
    if xs != [] {
      var last := xs[|xs| - 1];
      var init := xs[..|xs| - 1];
      DistinctCount(init);
      assert (set x | x in xs) == (set x | x in init) + {last};
      assert last !in init;
    }
  }

  /** Over the whole history no invocation of a grant reaches the provider twice, although pruning and fresh
      grants drop the receipts; the send counter counts the distinct invocations sent. */
  lemma AtMostOnce(s: State, h: History)
    requires Reachable(s, h)
    ensures NoRepeats(h.sent)
    ensures s.totalSends == |set c | c in h.sent|
  {
    ReachableInv(s, h);
    DistinctCount(h.sent);
  }

  // ----- identities in the two journals -----

  /** Every call ever sent, even when its receipt is retired or pruned, has its identity in the acceptance journal. */
  lemma AuditBeforeSend(s: State, h: History, c: Call)
    requires Reachable(s, h) && c in h.sent
    ensures IdentityOf(c) in s.acceptanceEvents
    ensures exists a :: a in h.accepted && IdentityOf(a) == IdentityOf(c)
  {
    ReachableInv(s, h);
  }

  /** A settled receipt, live or retired, has its identity in the completion journal. */
  lemma SettledIsPublished(s: State, h: History, g: string, i: string)
    requires Reachable(s, h)
    requires || (g == s.grantId && i in s.receipts && Delivered(s.receipts[i]))
             || (g in s.retiredReceipts && i in s.retiredReceipts[g])
    ensures (g, i) in h.published && Identity(g, i) in s.completionEvents
  {
    ReachableInv(s, h);
    assert IdentityOf((g, i)) == Identity(g, i);
  }

  /** A receipt still in progress is in the completion journal exactly when another published call
      shares its identity. */
  lemma UnfinishedInJournal(s: State, h: History, i: string)
    requires Reachable(s, h) && i in s.receipts && !Terminal(s.receipts[i].phase)
    ensures Identity(s.grantId, i) in s.completionEvents
            <==> exists c :: c in h.published && c != (s.grantId, i) && IdentityOf(c) == Identity(s.grantId, i)
  {
    ReachableInv(s, h);
  }

  // ----- quotas -----

  /** The tenant's outstanding receipts and their reserved bytes stay within the limits;
      all of them belong to the current grant. */
  lemma BacklogBounded(s: State, h: History)
    requires Reachable(s, h)
    ensures OutstandingTotal(s, Slot) <= s.slotLimit <= 1024
    ensures OutstandingTotal(s, Bytes) <= s.metadataLimit <= 8_388_608
    ensures forall g, i :: g in s.retiredReceipts && i in s.retiredReceipts[g] ==> !Outstanding(s.retiredReceipts[g][i])
  {
    ReachableInv(s, h);
    RetiredOccupyNothing(s);
    forall g, i | g in s.retiredReceipts && i in s.retiredReceipts[g]
      ensures !Outstanding(s.retiredReceipts[g][i])
    {
      assert AllDelivered(s.retiredReceipts[g]);
    }
  }

  // ----- fencing -----

  /** What may become of a receipt while its grant stays current. */
  predicate ReceiptEvolves(r: Receipt, n: Receipt) {
    && n.owner == r.owner && n.reservedBytes == r.reservedBytes
    && r.fence <= n.fence && r.sends <= n.sends
    && (!r.ownerAlive ==> !n.ownerAlive)
    && (r.fence < n.fence ==> !n.ownerAlive)
    && (Terminal(r.phase) ==> n.phase == r.phase && n.terminalAt == r.terminalAt && n.sends == r.sends)
    && (Delivered(r) ==> Delivered(n))
    && (PastIntent(r) && !r.sendPermit ==> PastIntent(n) && !n.sendPermit)
  }

  predicate PastIntent(r: Receipt) { r.phase != Phase.Claimed && r.phase != Phase.Audited }

  ghost predicate GrantEvolves(s: State, t: State) {
    && t.keyId == s.keyId && (s.closed ==> t.closed)
    && (forall i :: i in s.receipts && i in t.receipts ==> ReceiptEvolves(s.receipts[i], t.receipts[i]))
    && (forall i :: i in s.receipts && i !in t.receipts ==> t.closed)
    && (forall i :: i in t.receipts && i !in s.receipts ==> !s.closed)
  }

  /** How a later state of a run relates to an earlier one. */
  ghost predicate Evolves(s: State, t: State) {
    && s.epoch <= t.epoch && s.totalSends <= t.totalSends
    && s.knownGrants <= t.knownGrants && s.retiredKeys <= t.retiredKeys
    && s.acceptanceEvents <= t.acceptanceEvents && s.completionEvents <= t.completionEvents
    && s.retiredReceipts.Keys <= t.retiredReceipts.Keys
    && (forall g :: g in s.retiredReceipts ==> t.retiredReceipts[g] == s.retiredReceipts[g])
    && (if t.grantId == s.grantId then GrantEvolves(s, t)
        else t.grantId !in s.knownGrants && s.grantId in t.retiredReceipts)
  }

  lemma MoveEvolves(m: Move, s: State, h: History, t: State, k: History)
    requires GrantsOk(s) && ReceiptsOk(s) && IsMove(m, s, h, t, k)
    ensures Evolves(s, t)
  {
    if OneReceipt(m) {
      ReceiptMoveEvolves(m, s, h, t, k);
      PutEvolves(s, t, m.i);
    } else if m.RestoreMove? {
      RestoreEvolves(s, h, t, k);
    } else if m.ExchangeMove? {
      ExchangeEvolves(s, h, t, k);
    } else {
      GrantMoveEvolves(m, s, h, t, k);
    }
  }

  lemma ExchangeEvolves(s: State, h: History, t: State, k: History)
    requires GrantsOk(s) && IsExchangeMove(s, h, t, k)
    ensures Evolves(s, t)
  {
  }

  lemma GrantMoveEvolves(m: Move, s: State, h: History, t: State, k: History)
    requires IsMove(m, s, h, t, k) && (m.Idle? || m.ClaimMove? || m.PruneMove?)
    ensures Evolves(s, t)
  {
  }

  /** Only one receipt and the journals differ, and that receipt evolved. */
  ghost predicate PutAt(s: State, t: State, i: string) {
    && i in s.receipts && i in t.receipts && ReceiptEvolves(s.receipts[i], t.receipts[i])
    && t == s.(receipts := s.receipts[i := t.receipts[i]], totalSends := t.totalSends,
               acceptanceEvents := t.acceptanceEvents, completionEvents := t.completionEvents)
    && s.totalSends <= t.totalSends
    && s.acceptanceEvents <= t.acceptanceEvents && s.completionEvents <= t.completionEvents
  }

  lemma ReceiptMoveEvolves(m: Move, s: State, h: History, t: State, k: History)
    requires ReceiptsOk(s) && OneReceipt(m) && IsMove(m, s, h, t, k)
    ensures PutAt(s, t, m.i)
  {
  }

  lemma PutEvolves(s: State, t: State, i: string)
    requires PutAt(s, t, i)
    ensures Evolves(s, t)
  {
  }

  lemma RestoreEvolves(s: State, h: History, t: State, k: History)
    requires IsRestoreMove(s, h, t, k)
    ensures Evolves(s, t)
  {
  }

  lemma EvolvesOn(s: State, t: State, u: State)
    requires GrantsOk(s) && GrantsOk(t) && Evolves(s, t) && Evolves(t, u)
    ensures Evolves(s, u)
  {
  }

  lemma {:induction false} RunEvolves(s: State, h: History, events: seq<Event>)
    requires Inv(s, h)
    ensures Evolves(s, Run(s, h, events).0)
    decreases |events|
  {
    if events != [] && !Halts(s, events[0]) {
      var Reply(t, o) := Step(s, events[0]);
      var k := Observe(h, s.grantId, events[0], o);
      var m := StepIsMove(s, h, events[0]);
      MoveEvolves(m, s, h, t, k);
      StepKeeps(s, h, events[0]);
      RunEvolves(t, k, events[1..]);
      RunKeeps(t, k, events[1..]);
      EvolvesOn(s, t, Run(t, k, events[1..]).0);
    }
  }

  /** The operations reserved to the worker that claimed the receipt. */
  predicate WorkerOp(op: Op) {
    op == AcceptAudit || op == ReconcileAudit || op == Op.SendIntent || op == Send || op == Complete
  }

  /** The refusals a fenced worker may meet. */
  predicate Refusal(o: Outcome) {
    o == GrantMismatch || o == KeyMismatch || o == NoReceipt || o == Fenced
  }

  lemma FencedWorkerRefused(t: State, e: Event)
    requires WorkerOp(e.op)
    requires var i := e.Invocation();
             i in t.receipts ==> !t.receipts[i].ownerAlive || e.Fence() != t.receipts[i].fence
    ensures Step(t, e).state == t && Refusal(Step(t, e).outcome)
  {
  }

  predicate Authorises(o: Outcome) {
    o == Outcome.Claimed || o == Renewed || o == Outcome.SendIntent || o == IntentAckLost || o == ProviderSent
  }

  lemma ClosedAuthorisesNothing(t: State, e: Event)
    requires t.closed
    ensures !Authorises(Step(t, e).outcome)
  {
    if OnReceipt(t, e) {
      assert Step(t, e) == StepReceipt(t, e);
    }
  }

  /** Once a worker has lost its receipt, by a crash, a recovery or a restore, none of its operations on that
      invocation succeeds or changes anything for as long as the grant is current. */
  lemma LostReceiptStaysLost(s: State, h: History, i: string, events: seq<Event>, e: Event)
    requires Reachable(s, h) && i in s.receipts && !s.receipts[i].ownerAlive
    requires WorkerOp(e.op) && e.Invocation() == i
    ensures var t := Run(s, h, events).0;
            t.grantId == s.grantId ==>
              Step(t, e).state == t && Refusal(Step(t, e).outcome)
  {
    ReachableInv(s, h);
    RunEvolves(s, h, events);
    var t := Run(s, h, events).0;
    if t.grantId == s.grantId {
      FencedWorkerRefused(t, e);
    }
  }

  /** A worker that presents a superseded fence is refused. */
  lemma OldFenceRefused(s: State, h: History, i: string, events: seq<Event>, e: Event)
    requires Reachable(s, h) && i in s.receipts
    requires WorkerOp(e.op) && e.Invocation() == i && e.Fence() < s.receipts[i].fence
    ensures var t := Run(s, h, events).0;
            t.grantId == s.grantId ==>
              Step(t, e).state == t && Refusal(Step(t, e).outcome)
  {
    ReachableInv(s, h);
    RunEvolves(s, h, events);
    var t := Run(s, h, events).0;
    if t.grantId == s.grantId {
      FencedWorkerRefused(t, e);
    }
  }

  /** A key retired by a restore never again lets a grant claim, renew, intend or send. */
  lemma RetiredKeyAuthorisesNothing(s: State, h: History, events: seq<Event>, e: Event)
    requires Reachable(s, h)
    ensures var t := Run(s, h, events).0;
            t.keyId in s.retiredKeys ==>
              t.closed && !Authorises(Step(t, e).outcome)
  {
    ReachableInv(s, h);
    RunEvolves(s, h, events);
    RunKeeps(s, h, events);
    var t := Run(s, h, events).0;
    if t.keyId in s.retiredKeys {
      ClosedAuthorisesNothing(t, e);
    }
  }

  /** A settled outcome is final: the phase of a terminal receipt never changes, and a receipt recorded as not
      sent has never been sent. */
  lemma OutcomesAreFinal(s: State, h: History, i: string, events: seq<Event>)
    requires Reachable(s, h) && i in s.receipts && Terminal(s.receipts[i].phase)
    ensures var (t, k) := Run(s, h, events);
            t.grantId == s.grantId ==>
              && (i in t.receipts ==> t.receipts[i].phase == s.receipts[i].phase
                                      && t.receipts[i].sends == s.receipts[i].sends)
              && (i !in t.receipts ==> t.closed)
    ensures s.receipts[i].phase == Phase.NotSent ==> (s.grantId, i) !in h.sent
  {
    ReachableInv(s, h);
    RunEvolves(s, h, events);
  }

  /** A worker that did not learn of its intent never sends: after a lost acknowledgement no send of that invocation
      reaches the provider for as long as the grant is current. */
  lemma LostIntentNeverSent(s: State, h: History, intend: Event, events: seq<Event>, e: Event)
    requires Reachable(s, h) && Step(s, intend).outcome == IntentAckLost
    requires e.op == Send && e.Invocation() == intend.Invocation()
    ensures var t := Run(Step(s, intend).state, h, events).0;
            t.grantId == s.grantId ==> Step(t, e).outcome != ProviderSent
  {
    var u := Step(s, intend).state;
    IntentLost(s, intend);
    IntentLostKeeps(s, h, intend);
    RunEvolves(u, h, events);
    NeverAfterwards(u, Run(u, h, events).0, e);
  }

  lemma IntentLost(s: State, e: Event)
    requires Step(s, e).outcome == IntentAckLost
    ensures OnReceipt(s, e) && e.op == Op.SendIntent
    ensures var t := Step(s, e).state;
            t.grantId == s.grantId && e.Invocation() in t.receipts && PastIntent(t.receipts[e.Invocation()])
            && !t.receipts[e.Invocation()].sendPermit
  {
  }

  lemma IntentLostKeeps(s: State, h: History, e: Event)
    requires Reachable(s, h) && Step(s, e).outcome == IntentAckLost && e.op == Op.SendIntent
    ensures Inv(Step(s, e).state, h)
  {
    ReachableInv(s, h);
    StepKeeps(s, h, e);
  }

  lemma NeverAfterwards(u: State, t: State, e: Event)
    requires Evolves(u, t) && e.op == Send && e.Invocation() in u.receipts
    requires PastIntent(u.receipts[e.Invocation()]) && !u.receipts[e.Invocation()].sendPermit
    ensures t.grantId == u.grantId ==> Step(t, e).outcome != ProviderSent
  {
    if t.grantId == u.grantId {
      NoPermitLater(u, t, e.Invocation());
      NoPermitNoSend(t, e);
    }
  }

  lemma NoPermitLater(u: State, t: State, i: string)
    requires Evolves(u, t) && i in u.receipts && PastIntent(u.receipts[i]) && !u.receipts[i].sendPermit
    ensures t.grantId == u.grantId && i in t.receipts ==> !t.receipts[i].sendPermit
  {
  }

  lemma NoPermitNoSend(t: State, e: Event)
    requires e.op == Send && (e.Invocation() in t.receipts ==> !t.receipts[e.Invocation()].sendPermit)
    ensures Step(t, e).outcome != ProviderSent
  {
    if OnReceipt(t, e) {
      assert Step(t, e) == StepReceipt(t, e);
    }
  }
}
