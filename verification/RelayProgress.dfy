/** Progress of the recovery model: no reachable state is wedged. */
module RelayProgress {
  import opened Prelude
  import opened Relay
  import opened RelayInvariant

  /** The outcomes of a run, up to and including its first exception. */
  ghost function Outcomes(s: State, events: seq<Event>): seq<Outcome>
    decreases |events|
  {
    if events == [] then []
    else
      var Reply(t, o) := Step(s, events[0]);
      [o] + if o.Raised() then [] else Outcomes(t, events[1..])
  }

  /** The events a receipt needs before its completion is delivered. */
  function Chores(r: Receipt): int {
    if !Terminal(r.phase) then 2 else if r.outboxPending then 1 else 0
  }

  /** The events the whole relay needs before a fresh grant can be installed, and that installation. */
  ghost function Distance(s: State): int {
    (if s.available then 0 else 1) + Tally(s.receipts, Chores) + (if s.closed then 0 else 1) + 1
  }

  function FreshGrantEvent(s: State, g: string, k: string, expires: int): Event {
    Bare(FreshGrant).(epoch := Some(s.epoch), grantId := Some(g), keyId := Some(k), expiresAt := Some(expires))
  }

  function On(op: Op, i: string): Event {
    Bare(op).(invocation := Some(i))
  }

  /** The authority a fresh grant is checked against is untouched. */
  predicate SameAuthority(s: State, t: State) {
    && t.epoch == s.epoch && t.knownGrants == s.knownGrants && t.retiredKeys == s.retiredKeys
    && t.slotLimit == s.slotLimit && t.metadataLimit == s.metadataLimit && t.ageLimit == s.ageLimit
  }

  /** The step of `e` raises nothing and is one event closer to a fresh grant. */
  ghost predicate Advances(s: State, e: Event) {
    var Reply(t, o) := Step(s, e);
    !o.Raised() && SameAuthority(s, t) && Distance(t) == Distance(s) - 1
  }

  lemma ReceiptAdvances(s: State, e: Event, t: State, o: Outcome, n: Receipt)
    requires e.Invocation() in s.receipts && Step(s, e) == Reply(t, o) && !o.Raised()
    requires t == s.(receipts := s.receipts[e.Invocation() := n], completionEvents := t.completionEvents)
    requires Chores(n) == Chores(s.receipts[e.Invocation()]) - 1
    ensures Advances(s, e)
  {
    TallySet(s.receipts, Chores, e.Invocation(), n);
  }

  /** Recovery of a live receipt leaves its completion to be published. */
  lemma Recovery(s: State, e: Event)
    requires s.available && OnReceipt(s, e) && e.op == Recover && !Terminal(s.receipts[e.Invocation()].phase)
    ensures var Reply(t, o) := StepReceipt(s, e);
            && Step(s, e) == Reply(t, o) && !o.Raised() && e.Invocation() in t.receipts
            && t == s.(receipts := s.receipts[e.Invocation() := t.receipts[e.Invocation()]])
            && Chores(t.receipts[e.Invocation()]) == 1
  {
  }

  lemma RecoverAdvances(s: State, h: History, e: Event)
    requires Inv(s, h) && s.available && OnReceipt(s, e) && e.op == Recover
    requires !Terminal(s.receipts[e.Invocation()].phase)
    ensures Advances(s, e)
  {
    Recovery(s, e);
    var Reply(t, o) := StepReceipt(s, e);
    ReceiptAdvances(s, e, t, o, t.receipts[e.Invocation()]);
  }

  /** Publication of a pending completion leaves nothing to do for the receipt. */
  lemma Publication(s: State, e: Event)
    requires OnReceipt(s, e) && e.op == PublishCompletion && e.AuditAvailable() && e.Acknowledged()
    requires Terminal(s.receipts[e.Invocation()].phase) && s.receipts[e.Invocation()].outboxPending
    ensures var Reply(t, o) := StepReceipt(s, e);
            && Step(s, e) == Reply(t, o) && !o.Raised() && e.Invocation() in t.receipts
            && t == s.(receipts := s.receipts[e.Invocation() := t.receipts[e.Invocation()]],
                       completionEvents := t.completionEvents)
            && Chores(t.receipts[e.Invocation()]) == 0
  {
  }

  lemma PublishAdvances(s: State, h: History, e: Event)
    requires Inv(s, h) && OnReceipt(s, e) && e.op == PublishCompletion && e.AuditAvailable() && e.Acknowledged()
    requires Terminal(s.receipts[e.Invocation()].phase) && s.receipts[e.Invocation()].outboxPending
    ensures Advances(s, e)
  {
    Publication(s, e);
    var Reply(t, o) := StepReceipt(s, e);
    ReceiptAdvances(s, e, t, o, t.receipts[e.Invocation()]);
  }

  /** What an operator does to get back to work: no claim and no worker operation. */
  predicate RescueOp(op: Op) {
    op == Availability || op == Recover || op == PublishCompletion || op == Revoke || op == FreshGrant
  }

  lemma SettleOne(s: State, h: History, i: string) returns (e: Event)
    requires Inv(s, h) && s.available && i in s.receipts && Outstanding(s.receipts[i])
    ensures Advances(s, e) && RescueOp(e.op)
  {
    if Terminal(s.receipts[i].phase) {
      e := On(PublishCompletion, i);
      PublishAdvances(s, h, e);
    } else {
      e := On(Recover, i);
      RecoverAdvances(s, h, e);
    }
  }

  lemma GrantAdvances(s: State, e: Event)
    requires (!s.available && e == Bare(Availability).(available := Some(true)))
             || (!s.closed && e == Bare(Revoke))
    ensures Advances(s, e)
  {
  }

  /** One event towards a fresh grant, unless only its installation is left. */
  lemma NextChore(s: State, h: History) returns (e: Event)
    requires Inv(s, h) && Distance(s) > 1
    ensures Advances(s, e) && RescueOp(e.op)
  {
    if !s.available {
      e := Bare(Availability).(available := Some(true));
      GrantAdvances(s, e);
    } else if i :| i in s.receipts && Outstanding(s.receipts[i]) {
      e := SettleOne(s, h, i);
    } else {
      TallyZero(s.receipts, Chores);
      e := Bare(Revoke);
      GrantAdvances(s, e);
    }
  }

  lemma NothingLeft(s: State, h: History)
    requires Inv(s, h) && Distance(s) <= 1
    ensures s.available && s.closed && Tally(s.receipts, Chores) == 0
    ensures forall i :: i in s.receipts ==> !Outstanding(s.receipts[i])
  {
    TallyNonNegative(s.receipts, Chores);
    forall i | i in s.receipts
      ensures !Outstanding(s.receipts[i])
    {
      TallyRemove(s.receipts, Chores, i);
      TallyNonNegative(s.receipts - {i}, Chores);
    }
  }

  /** None of the events raises an exception and the last one is answered by `o`. */
  ghost predicate EndsWith(s: State, events: seq<Event>, o: Outcome) {
    |events| > 0 && |Outcomes(s, events)| == |events| && Outcomes(s, events)[|events| - 1] == o
  }

  lemma RunCons(s: State, h: History, e: Event, rest: seq<Event>)
    requires !Halts(s, e)
    ensures Run(s, h, [e] + rest) == Run(Step(s, e).state, Observe(h, s.grantId, e, Step(s, e).outcome), rest)
    ensures !Step(s, e).outcome.Raised() ==>
              Outcomes(s, [e] + rest) == [Step(s, e).outcome] + Outcomes(Step(s, e).state, rest)
  {
  }

  lemma Installation(s: State, h: History, g: string, k: string, expires: int)
    requires s.closed && g !in s.knownGrants && k !in s.retiredKeys
    requires forall i :: i in s.receipts ==> !Outstanding(s.receipts[i])
    ensures var Reply(t, o) := Step(s, FreshGrantEvent(s, g, k, expires));
            o == FreshGrantInstalled && IsExchangeMove(s, h, t, h)
            && t.grantId == g && t.keyId == k && t.expiresAt == expires
  {
  }

  /** The grant has just been exchanged and has no receipts. */
  predicate Installed(t: State, g: string, k: string, expires: int, metadata: int) {
    && t.grantId == g && t.keyId == k && t.expiresAt == expires && t.metadataLimit == metadata
    && t.receipts == map[] && !t.closed && t.available
  }

  /** The administrative events, at most `n`, all take effect and the last one installs the grant. */
  ghost predicate Installs(s: State, h: History, g: string, k: string, expires: int, n: int, events: seq<Event>) {
    && |events| <= n
    && (forall j :: 0 <= j < |events| ==> RescueOp(events[j].op))
    && EndsWith(s, events, FreshGrantInstalled)
    && Installed(Run(s, h, events).0, g, k, expires, s.metadataLimit)
  }

  lemma LastEvent(s: State, h: History, g: string, k: string, expires: int) returns (e: Event)
    requires Inv(s, h) && g !in s.knownGrants && k !in s.retiredKeys && Distance(s) <= 1
    ensures Distance(s) == 1 && Installs(s, h, g, k, expires, 1, [e])
  {
    NothingLeft(s, h);
    e := FreshGrantEvent(s, g, k, expires);
    Installation(s, h, g, k, expires);
    RunCons(s, h, e, []);
    assert [e] + [] == [e];
  }

  lemma OneEarlier(s: State, h: History, e: Event, g: string, k: string, expires: int, n: int, rest: seq<Event>)
    requires Advances(s, e) && RescueOp(e.op)
    requires Installs(Step(s, e).state, Observe(h, s.grantId, e, Step(s, e).outcome), g, k, expires, n, rest)
    ensures Installs(s, h, g, k, expires, n + 1, [e] + rest)
  {
    RunCons(s, h, e, rest);
  }

  lemma {:induction false} RescueRun(s: State, h: History, g: string, k: string, expires: int)
    returns (events: seq<Event>)
    requires Inv(s, h) && g !in s.knownGrants && k !in s.retiredKeys
    ensures Installs(s, h, g, k, expires, Distance(s), events)
    decreases Distance(s)
  {
    if Distance(s) <= 1 {
      var e := LastEvent(s, h, g, k, expires);
      events := [e];
    } else {
      var e := NextChore(s, h);
      StepKeeps(s, h, e);
      var rest := RescueRun(Step(s, e).state, Observe(h, s.grantId, e, Step(s, e).outcome), g, k, expires);
      OneEarlier(s, h, e, g, k, expires, Distance(s) - 1, rest);
      events := [e] + rest;
    }
  }

  lemma {:induction false} ChoresBound(receipts: map<string, Receipt>)
    ensures 0 <= Tally(receipts, Chores) <= 2 * Tally(receipts, Slot)
    decreases |receipts|
  {
    if |receipts| != 0 {
      var i :| i in receipts;
      TallyRemove(receipts, Chores, i);
      TallyRemove(receipts, Slot, i);
      ChoresBound(receipts - {i});
    }
  }

  /** With no live receipt there is no backlog to refuse a claim for. */
  lemma EmptyGrantAccepts(t: State, k: History, now: int)
    requires Inv(t, k) && t.receipts == map[]
    ensures OutstandingTotal(t, Slot) == 0 && OutstandingTotal(t, Bytes) == 0 && !SomeStale(t, now)
  {
    RetiredOccupyNothing(t);
    forall g | g in t.retiredReceipts
      ensures !AnyStale(t.retiredReceipts[g], now, t.ageLimit)
    {
      assert AllDelivered(t.retiredReceipts[g]);
    }
  }

  /** A claim that names its worker, is in time and fits the metadata limit. */
  predicate Claimable(claim: Event, expires: int, metadata: int) {
    && claim.op == Claim && claim.grantId.None? && claim.keyId.None? && claim.epoch.None?
    && claim.Now() < expires && claim.worker.Some? && 0 < claim.MetadataBytes() <= metadata
  }

  /** The events, at most `n` and all of them administrative, install the grant; every claim within the limits then
      succeeds. */
  ghost predicate Rescues(s: State, h: History, g: string, k: string, expires: int, n: int, events: seq<Event>) {
    && Installs(s, h, g, k, expires, n, events)
    && forall claim :: Claimable(claim, expires, s.metadataLimit) ==>
         Step(Run(s, h, events).0, claim).outcome == Outcome.Claimed
  }

  ghost predicate CanBeRescued(s: State, h: History, g: string, k: string, expires: int, n: int) {
    exists events :: Rescues(s, h, g, k, expires, n, events)
  }

  /** From every reachable state with n outstanding receipts, at most 2n + 3 events, none of which raises, install a
      fresh grant under any unused grant id and unretired key; any claim within the limits then succeeds. */
  lemma NeverWedged(s: State, h: History, g: string, k: string, expires: int)
    requires Reachable(s, h) && g !in s.knownGrants && k !in s.retiredKeys
    ensures CanBeRescued(s, h, g, k, expires, 2 * OutstandingTotal(s, Slot) + 3)
  {
    ReachableInv(s, h);
    RetiredOccupyNothing(s);
    ChoresBound(s.receipts);
    var events := RescueRun(s, h, g, k, expires);
    RunKeeps(s, h, events);
    var (t, j) := Run(s, h, events);
    forall claim | Claimable(claim, expires, s.metadataLimit)
      ensures Step(t, claim).outcome == Outcome.Claimed
    {
      ClaimAccepted(t, j, claim, expires);
    }
    assert Rescues(s, h, g, k, expires, 2 * OutstandingTotal(s, Slot) + 3, events);
  }

  lemma ClaimAccepted(t: State, k: History, claim: Event, expires: int)
    requires Inv(t, k) && t.receipts == map[] && !t.closed && t.available && t.expiresAt == expires
    requires Claimable(claim, expires, t.metadataLimit)
    ensures var receipt := Fresh(claim.worker.value, claim.MetadataBytes());
            Step(t, claim) == Reply(t.(receipts := map[claim.Invocation() := receipt]), Outcome.Claimed)
  {
    EmptyGrantAccepts(t, k, claim.Now());
    assert t.receipts[claim.Invocation() := Fresh(claim.worker.value, claim.MetadataBytes())]
        == map[claim.Invocation() := Fresh(claim.worker.value, claim.MetadataBytes())];
  }
}
