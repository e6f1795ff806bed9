/** What the recovery model grants under authority, and when it prunes or calls the backlog stale. */
module RelayAuthority {
  import opened Prelude
  import opened Relay
  import opened RelayInvariant
  import opened RelayView
  import opened RelayAnswers

  /** The event comes while the store is up and the grant in force is open and has not run out, and it names no other
      grant, key or epoch. */
  predicate UnderAuthority(s: State, e: Event) {
    && s.available && !s.closed && e.Now() < s.expiresAt
    && (e.epoch.None? || e.epoch.value == s.epoch)
    && (e.grantId.None? || e.grantId.value == s.grantId) && (e.keyId.None? || e.keyId.value == s.keyId)
  }

  lemma TakingAuthority(s: State, e: Event)
    requires var o := Step(s, e).outcome; o == Outcome.Claimed || o == Renewed
    ensures UnderAuthority(s, e)
  {
    if OnReceipt(s, e) {
      assert Step(s, e) == StepReceipt(s, e);
    }
  }

  lemma UsingAuthority(s: State, e: Event)
    requires var o := Step(s, e).outcome; o == Outcome.SendIntent || o == IntentAckLost || o == ProviderSent
    ensures UnderAuthority(s, e) && OnReceipt(s, e)
  {
    if OnReceipt(s, e) {
      assert Step(s, e) == StepReceipt(s, e);
    }
  }

  /** In every run nothing is claimed, renewed, intended or sent except under authority. */
  lemma AuthorityOnly(s: State, e: Event)
    requires var o := Step(s, e).outcome;
             o == Outcome.Claimed || o == Renewed || o == Outcome.SendIntent || o == IntentAckLost || o == ProviderSent
    ensures UnderAuthority(s, e)
  {
    var o := Step(s, e).outcome;
    if o == Outcome.Claimed || o == Renewed {
      TakingAuthority(s, e);
    } else {
      UsingAuthority(s, e);
    }
  }

  /** The event comes from the living worker that claimed the invocation, with its present fence. */
  predicate ByOwner(s: State, e: Event) {
    && e.Invocation() in s.receipts && s.receipts[e.Invocation()].ownerAlive
    && e.worker == Some(s.receipts[e.Invocation()].owner) && e.Fence() == s.receipts[e.Invocation()].fence
  }

  ghost predicate HasPermit(s: State, i: string) { i in s.receipts && s.receipts[i].sendPermit }

  lemma SentStep(s: State, e: Event)
    requires HasPermit(s, e.Invocation()) ==> s.receipts[e.Invocation()].phase == Intended
    ensures Step(s, e).outcome == ProviderSent
       <==> e.op == Send && UnderAuthority(s, e) && ByOwner(s, e) && HasPermit(s, e.Invocation())
  {
    if OnReceipt(s, e) {
      assert Step(s, e) == StepReceipt(s, e);
    }
  }

  /** In every run a send reaches the provider exactly under authority, from the owner, and with an unused permit. */
  lemma SentExactly(s: State, h: History, e: Event)
    requires Reachable(s, h)
    ensures Step(s, e).outcome == ProviderSent
       <==> e.op == Send && UnderAuthority(s, e) && ByOwner(s, e) && HasPermit(s, e.Invocation())
  {
    ReachableInv(s, h);
    assert e.Invocation() in s.receipts ==> ReceiptOk(s.receipts[e.Invocation()]);
    SentStep(s, e);
  }

  /** The answer gives the worker of the invocation its permit. */
  predicate Permits(a: Answer, i: string) { a.event.Invocation() == i && a.outcome == Outcome.SendIntent }

  /** The answer uses the permit up, or takes it away. */
  predicate Revokes(a: Answer, i: string) {
    || a.outcome == RestoreFenced || a.outcome == FreshGrantInstalled
    || (a.event.Invocation() == i
        && (|| a.outcome == Outcome.Claimed || a.outcome == OwnerCrashed || a.outcome == Outcome.NotSent
            || a.outcome == Outcome.OutcomeUnknown || a.outcome == IntentAckLost || a.outcome == ProviderSent
            || a.outcome == Outcome.Completed || (a.outcome == TerminalAckLost && a.event.Committed())
            || a.outcome == Pruned))
  }

  /** A permit was given and has been neither used nor taken away since. */
  predicate Permitted(log: seq<Answer>, i: string) {
    log != []
    && (Permits(log[|log| - 1], i) || (!Revokes(log[|log| - 1], i) && Permitted(log[..|log| - 1], i)))
  }

  lemma PermitAfter(receipts: map<string, Receipt>, a: Answer, i: string)
    requires Permits(a, i) ==> i in receipts
    ensures var after := ReceiptsAfter(receipts, a);
            i in after && after[i].sendPermit
            <==> Permits(a, i) || (!Revokes(a, i) && i in receipts && receipts[i].sendPermit)
  {
    if i in receipts && i == a.event.Invocation() {
      PermitOn(receipts[i], a, i);
    }
  }

  lemma PermitOn(r: Receipt, a: Answer, i: string)
    requires i == a.event.Invocation()
    ensures !(a.outcome.RestoreFenced? || a.outcome.FreshGrantInstalled? || a.outcome.Claimed? || a.outcome.Pruned?) ==>
              (ReceiptAfter(r, a).sendPermit <==> Permits(a, i) || (!Revokes(a, i) && r.sendPermit))
  {
  }

  lemma PermitStep(s: State, e: Event, i: string)
    requires !Halts(s, e)
    ensures var Reply(t, o) := Step(s, e);
            HasPermit(t, i) <==> Permits(Answer(e, o), i) || (!Revokes(Answer(e, o), i) && HasPermit(s, i))
  {
    var Reply(t, o) := Step(s, e);
    if Permits(Answer(e, o), i) {
      UsingAuthority(s, e);
    }
    PermitAfter(s.receipts, Answer(e, o), i);
    assert t.receipts == ReceiptsAfter(s.receipts, Answer(e, o)) by {
      StepForeseen(s, e);
      assert ViewOf(t).receipts == ViewAfter(ViewOf(s), Answer(e, o)).receipts;
    }
  }

  predicate PermittedFrom(before: bool, log: seq<Answer>, i: string)
    decreases |log|
  {
    if log == [] then before
    else PermittedFrom(Permits(log[0], i) || (!Revokes(log[0], i) && before), log[1..], i)
  }

  lemma {:induction false} PermittedLast(before: bool, log: seq<Answer>, a: Answer, i: string)
    ensures PermittedFrom(before, log + [a], i)
       <==> Permits(a, i) || (!Revokes(a, i) && PermittedFrom(before, log, i))
    decreases |log|
  {
    if log == [] {
      assert [] + [a] == [a] && [a][1..] == [];
    } else {
      assert (log + [a])[1..] == log[1..] + [a];
      PermittedLast(Permits(log[0], i) || (!Revokes(log[0], i) && before), log[1..], a, i);
    }
  }

  lemma {:induction false} PermittedTwice(log: seq<Answer>, i: string)
    ensures Permitted(log, i) <==> PermittedFrom(false, log, i)
  {
    if log != [] {
      var n := |log| - 1;
      PermittedTwice(log[..n], i);
      PermittedLast(false, log[..n], log[n], i);
      assert log == log[..n] + [log[n]];
    }
  }

  lemma {:induction false} PermitsTold(s: State, h: History, events: seq<Event>, i: string)
    ensures HasPermit(Run(s, h, events).0, i) <==> PermittedFrom(HasPermit(s, i), Log(s, events), i)
    decreases |events|
  {
    if events != [] && !Halts(s, events[0]) {
      var Reply(t, o) := Step(s, events[0]);
      PermitStep(s, events[0], i);
      PermitsTold(t, Observe(h, s.grantId, events[0], o), events[1..], i);
    }
  }

  /** In every run a worker holds a permit exactly when its intent was acknowledged and nothing has since used the
      permit up or taken it away. */
  lemma PermitExactly(init: State, events: seq<Event>, i: string)
    requires Started(init)
    ensures HasPermit(Run(init, NO_HISTORY, events).0, i) <==> Permitted(Log(init, events), i)
  {
    PermitsTold(init, NO_HISTORY, events, i);
    PermittedTwice(Log(init, events), i);
  }

  // ----- what follows for the backlog -----

  /** A claim under authority for a new invocation is refused as stale exactly when some completion of the grant has
      waited undelivered for the age limit. */
  lemma StaleExactly(s: State, h: History, e: Event)
    requires Reachable(s, h) && e.op == Claim && UnderAuthority(s, e) && e.Invocation() !in s.receipts
    ensures Step(s, e).outcome == TenantBacklogStale <==> StaleBacklog(s.receipts, e.Now(), s.ageLimit)
  {
    ReachableInv(s, h);
    BacklogKnown(s, h, e.Now());
    StaleStep(s, e);
  }

  ghost predicate StaleBacklog(receipts: map<string, Receipt>, now: int, age: int) {
    exists j :: j in receipts && receipts[j].outboxPending && receipts[j].terminalAt.Some?
                && now - receipts[j].terminalAt.value >= age
  }

  lemma StaleStep(s: State, e: Event)
    requires e.op == Claim && UnderAuthority(s, e) && e.Invocation() !in s.receipts && BacklogSeen(s, e.Now())
    ensures Step(s, e).outcome == TenantBacklogStale <==> StaleBacklog(s.receipts, e.Now(), s.ageLimit)
  {
    if j :| j in s.receipts && OverdueAt(s.receipts[j], e.Now(), s.ageLimit) {
      assert StaleBacklog(s.receipts, e.Now(), s.ageLimit);
    }
    if StaleBacklog(s.receipts, e.Now(), s.ageLimit) {
      var j :| j in s.receipts && s.receipts[j].outboxPending && s.receipts[j].terminalAt.Some?
               && e.Now() - s.receipts[j].terminalAt.value >= s.ageLimit;
      assert OverdueAt(s.receipts[j], e.Now(), s.ageLimit);
    }
  }

  /** A receipt is pruned exactly when the grant is closed and expired a minute ago, and its completion is delivered. */
  lemma PrunedExactly(s: State, e: Event)
    requires e.op == Prune
    ensures Step(s, e).outcome == Pruned
       <==> && s.available && s.closed && e.Now() >= s.expiresAt + 60
            && (e.grantId.None? || e.grantId.value == s.grantId) && (e.keyId.None? || e.keyId.value == s.keyId)
            && e.Invocation() in s.receipts && Terminal(s.receipts[e.Invocation()].phase)
            && !s.receipts[e.Invocation()].outboxPending
  {
    if OnReceipt(s, e) {
      assert Step(s, e) == StepReceipt(s, e);
    }
  }

  // ----- keys an event may leave out -----

  /** A claim that names only its worker is made at time 1 for "request-a", with 256 bytes and fence 1. */
  lemma BareClaim(init: State, w: string)
    requires Started(init)
    ensures var Reply(t, o) := Step(init, Bare(Claim).(worker := Some(w)));
            if init.expiresAt <= 1 then o == GrantClosed
            else if init.metadataLimit < 256 then o == TenantMetadataFull
            else
              o == Outcome.Claimed
              && t.receipts == map["request-a" := Receipt(Phase.Claimed, w, 1, true, false, 0, false, 256, None)]
  {
    assert Tally(init.receipts, Slot) == 0 && Tally(init.receipts, Bytes) == 0;
    assert Tally(init.retiredReceipts, PerGrant(Slot)) == 0 && Tally(init.retiredReceipts, PerGrant(Bytes)) == 0;
  }

  /** The worker that made it need name no fence, until the fence has been raised. */
  lemma BareFence(s: State, e: Event)
    requires e.Invocation() in s.receipts && e.fence.None?
    ensures ByOwner(s, e) ==> s.receipts[e.Invocation()].fence == 1
  {
  }
}
