/** When two calls can share an identity, and what that does to the two journals. */
module RelayIdentities {
  import opened Prelude
  import opened Relay
  import opened RelayInvariant
  import opened RelaySafety
  import opened RelayProgress

  // ----- identities -----

  /** The grant id `f` continues the grant id `g` after a colon. */
  predicate Extends(f: string, g: string) { g + ":" <= f }

  /** Two invocations of the grants have the same identity although they are different calls. */
  ghost predicate CanCollide(f: string, g: string) {
    exists i, j :: (f, i) != (g, j) && Identity(f, i) == Identity(g, j)
  }

  lemma LongerExtends(f: string, i: string, g: string, j: string)
    requires Identity(f, i) == Identity(g, j) && |g| < |f|
    ensures Extends(f, g)
  {
    var text := Identity(f, i);
    assert text[..|f|] == f && text[..|g| + 1] == g + ":";
    assert f[..|g| + 1] == text[..|f|][..|g| + 1] == text[..|g| + 1];
  }

  lemma SameLength(f: string, i: string, g: string, j: string)
    requires Identity(f, i) == Identity(g, j) && |g| == |f|
    ensures f == g && i == j
  {
    var text := Identity(f, i);
    assert text[..|f|] == f && text[..|g|] == g && text[|f| + 1..] == i && text[|g| + 1..] == j;
  }

  /** Two calls share an identity only when they are the same, or one grant id extends the other. */
  lemma IdentityCollision(c: Call, d: Call)
    requires IdentityOf(c) == IdentityOf(d)
    ensures c == d || Extends(c.0, d.0) || Extends(d.0, c.0)
  {
    if |c.0| < |d.0| {
      LongerExtends(d.0, d.1, c.0, c.1);
    } else if |d.0| < |c.0| {
      LongerExtends(c.0, c.1, d.0, d.1);
    } else {
      SameLength(c.0, c.1, d.0, d.1);
    }
  }

  /** The colon between grant and invocation can be read at two places. */
  lemma SameText(g: string, x: string, i: string)
    ensures Identity(g, x + ":" + i) == Identity(g + ":" + x, i)
  {
    assert g + ":" + (x + ":" + i) == g + ":" + x + ":" + i;
  }

  lemma ExtensionCollides(f: string, g: string)
    requires Extends(f, g)
    ensures CanCollide(f, g) && CanCollide(g, f)
  {
    var x := f[|g| + 1..];
    assert f == g + ":" + x;
    SameText(g, x, "");
    assert (f, "") != (g, x + ":" + "") && Identity(f, "") == Identity(g, x + ":" + "");
  }

  /** Two grants can collide exactly when one id extends the other. */
  lemma CollisionExactly(f: string, g: string)
    ensures CanCollide(f, g) <==> Extends(f, g) || Extends(g, f)
  {
    if Extends(f, g) {
      ExtensionCollides(f, g);
    }
    if Extends(g, f) {
      ExtensionCollides(g, f);
    }
    if i, j :| (f, i) != (g, j) && Identity(f, i) == Identity(g, j) {
      IdentityCollision((f, i), (g, j));
    }
  }

  /** No grant id among `grants` extends another. */
  ghost predicate Separate(grants: set<string>) {
    forall f, g :: f in grants && g in grants ==> !Extends(f, g)
  }

  // ----- separate grants keep the journals apart -----

  /** In no run under these grants is a receipt in progress in the completion journal. */
  ghost predicate CompletionsTrusted(grants: set<string>) {
    forall s, h, i ::
      Reachable(s, h) && s.knownGrants <= grants && i in s.receipts && !Terminal(s.receipts[i].phase) ==>
        Identity(s.grantId, i) !in s.completionEvents
  }

  /** In no run under these grants is a call sent that was not itself accepted. */
  ghost predicate AcceptancesTrusted(grants: set<string>) {
    forall s, h, c :: Reachable(s, h) && s.knownGrants <= grants && c in h.sent ==> c in h.accepted
  }

  lemma UnfinishedNotPublished(s: State, h: History, i: string)
    requires Reachable(s, h) && i in s.receipts && !Terminal(s.receipts[i].phase) && Separate(s.knownGrants)
    ensures Identity(s.grantId, i) !in s.completionEvents
  {
    ReachableInv(s, h);
    UnfinishedInJournal(s, h, i);
    forall c | c in h.published && IdentityOf(c) == Identity(s.grantId, i)
      ensures c == (s.grantId, i)
    {
      IdentityCollision(c, (s.grantId, i));
    }
  }

  lemma SentWasAccepted(s: State, h: History, c: Call)
    requires Reachable(s, h) && c in h.sent && Separate(s.knownGrants)
    ensures c in h.accepted
  {
    ReachableInv(s, h);
    AuditBeforeSend(s, h, c);
    var a :| a in h.accepted && IdentityOf(a) == IdentityOf(c);
    IdentityCollision(a, c);
  }

  // ----- a run under a grant that extends another -----

  lemma {:induction false} RunSnoc(s: State, h: History, events: seq<Event>, e: Event, t: State, k: History)
    requires Run(s, h, events) == (t, k) && !Halts(t, e)
    ensures exists longer :: Run(s, h, longer)
                             == (Step(t, e).state, Observe(k, t.grantId, e, Step(t, e).outcome))
    decreases |events|
  {
    if events == [] || Halts(s, events[0]) {
      RunCons(s, h, e, []);
    } else {
      var Reply(u, o) := Step(s, events[0]);
      var j := Observe(h, s.grantId, events[0], o);
      RunSnoc(u, j, events[1..], e, t, k);
      var longer :| Run(u, j, longer) == (Step(t, e).state, Observe(k, t.grantId, e, Step(t, e).outcome));
      RunCons(s, h, events[0], longer);
    }
  }

  lemma ReachableStep(s: State, h: History, e: Event)
    requires Reachable(s, h) && !Step(s, e).outcome.Raised()
    ensures Reachable(Step(s, e).state, Observe(h, s.grantId, e, Step(s, e).outcome))
  {
    var init, events :| Started(init) && Run(init, NO_HISTORY, events) == (s, h);
    RunSnoc(init, NO_HISTORY, events, e, s, h);
  }

  lemma ClaimByW(s: State, h: History, i: string) returns (t: State)
    requires Reachable(s, h) && s.receipts == map[] && !s.closed && s.available && s.expiresAt == 100
    requires s.metadataLimit == 256
    ensures t == s.(receipts := map[i := Fresh("w", 256)]) && Reachable(t, h)
  {
    var claim := On(Claim, i).(worker := Some("w"));
    ReachableInv(s, h);
    ClaimAccepted(s, h, claim, 100);
    ReachableStep(s, h, claim);
    t := Step(s, claim).state;
  }

  lemma AcceptByW(s: State, h: History, j: string) returns (t: State, k: History)
    requires Reachable(s, h) && s.available && s.receipts == map[j := Fresh("w", 256)]
    ensures t == s.(receipts := map[j := Fresh("w", 256).(phase := Phase.Audited)],
                    acceptanceEvents := s.acceptanceEvents + {Identity(s.grantId, j)})
    ensures k == h.(accepted := h.accepted + {(s.grantId, j)}) && Reachable(t, k)
  {
    var accept := On(AcceptAudit, j).(worker := Some("w"));
    ReachableStep(s, h, accept);
    t, k := Step(s, accept).state, Observe(h, s.grantId, accept, Outcome.Audited);
  }

  lemma RecoverUnsent(s: State, h: History, j: string) returns (t: State)
    requires Reachable(s, h) && s.available && s.receipts == map[j := Fresh("w", 256).(phase := Phase.Audited)]
    ensures Reachable(t, h) && t == s.(receipts := t.receipts) && t.receipts.Keys == {j}
    ensures Terminal(t.receipts[j].phase) && t.receipts[j].outboxPending && t.receipts[j].terminalAt.Some?
  {
    var recover := On(Recover, j);
    ReachableStep(s, h, recover);
    var r := FencedOff(s.receipts[j]).(phase := Phase.NotSent, outboxPending := true, terminalAt := Some(1));
    t := s.(receipts := s.receipts[j := r]);
    assert Step(s, recover) == Reply(t, Outcome.NotSent);
  }

  lemma PublishSettled(s: State, h: History, j: string) returns (t: State, k: History)
    requires Reachable(s, h) && s.receipts.Keys == {j}
    requires Terminal(s.receipts[j].phase) && s.receipts[j].outboxPending
    ensures Reachable(t, k) && t == s.(receipts := t.receipts, completionEvents := t.completionEvents)
    ensures t.receipts.Keys == {j} && !Outstanding(t.receipts[j]) && Identity(s.grantId, j) in t.completionEvents
    ensures k.sent == h.sent && k.accepted == h.accepted
  {
    var publish := On(PublishCompletion, j);
    ReachableStep(s, h, publish);
    t := s.(receipts := s.receipts[j := s.receipts[j].(outboxPending := false)],
            completionEvents := s.completionEvents + {Identity(s.grantId, j)});
    assert Step(s, publish) == Reply(t, CompletionRecorded);
    k := Observe(h, s.grantId, publish, CompletionRecorded);
  }

  lemma RevokeGrant(s: State, h: History) returns (t: State)
    requires Reachable(s, h)
    ensures t == s.(closed := true) && Reachable(t, h)
  {
    ReachableStep(s, h, Bare(Revoke));
    t := Step(s, Bare(Revoke)).state;
  }

  lemma ExchangeFor(s: State, h: History, f: string) returns (t: State)
    requires Reachable(s, h) && f !in s.knownGrants && s.keyId !in s.retiredKeys
    requires forall i :: i in s.receipts ==> !Outstanding(s.receipts[i])
    ensures Reachable(t, h) && t.grantId == f && t.knownGrants == s.knownGrants + {f}
    ensures t.receipts == map[] && !t.closed
    ensures t.expiresAt == 100 && t.available == s.available && t.metadataLimit == s.metadataLimit
    ensures t.acceptanceEvents == s.acceptanceEvents && t.completionEvents == s.completionEvents
  {
    var v := RevokeGrant(s, h);
    Installation(v, h, f, s.keyId, 100);
    ReachableStep(v, h, FreshGrantEvent(v, f, s.keyId, 100));
    t := Step(v, FreshGrantEvent(v, f, s.keyId, 100)).state;
  }

  /** Grant `g` accepts and settles an invocation; then grant `f`, which extends `g`, claims the invocation of the same
      identity. */
  ghost predicate Impersonated(s: State, h: History, f: string, g: string, i: string) {
    && Reachable(s, h) && s.knownGrants == {g, f} && s.grantId == f && s.receipts == map[i := Fresh("w", 256)]
    && s.available && !s.closed && s.expiresAt == 100
    && Identity(f, i) in s.completionEvents && Identity(f, i) in s.acceptanceEvents
    && h.sent == [] && (f, i) !in h.accepted
  }

  lemma FirstGrant(g: string, j: string) returns (s: State, h: History)
    ensures Reachable(s, h) && s.knownGrants == {g} && s.keyId !in s.retiredKeys
    ensures s.available && s.metadataLimit == 256
    ensures s.receipts.Keys == {j} && !Outstanding(s.receipts[j])
    ensures Identity(g, j) in s.completionEvents && Identity(g, j) in s.acceptanceEvents
    ensures h.sent == [] && h.accepted == {(g, j)}
  {
    var init := Initial(1, 100, g, "k", 1, 256, 60);
    assert Reachable(init, NO_HISTORY) by {
      assert Started(init) && Run(init, NO_HISTORY, []) == (init, NO_HISTORY);
    }
    s := ClaimByW(init, NO_HISTORY, j);
    s, h := AcceptByW(s, NO_HISTORY, j);
    s := RecoverUnsent(s, h, j);
    s, h := PublishSettled(s, h, j);
  }

  lemma Impersonation(g: string, x: string, i: string) returns (s: State, h: History)
    ensures Impersonated(s, h, g + ":" + x, g, i)
  {
    var f := g + ":" + x;
    s, h := FirstGrant(g, x + ":" + i);
    s := ExchangeFor(s, h, f);
    s := ClaimByW(s, h, i);
    SameText(g, x, i);
  }

  lemma ReconcileByW(s: State, h: History, i: string) returns (t: State)
    requires Reachable(s, h) && s.available && s.receipts == map[i := Fresh("w", 256)]
    requires Identity(s.grantId, i) in s.acceptanceEvents
    ensures t == s.(receipts := map[i := Fresh("w", 256).(phase := Phase.Audited)]) && Reachable(t, h)
  {
    var reconcile := On(ReconcileAudit, i).(worker := Some("w"));
    ReachableStep(s, h, reconcile);
    t := Step(s, reconcile).state;
  }

  lemma IntendByW(s: State, h: History, i: string) returns (t: State)
    requires Reachable(s, h) && s.available && !s.closed && s.expiresAt == 100
    requires s.receipts == map[i := Fresh("w", 256).(phase := Phase.Audited)]
    ensures t == s.(receipts := map[i := Fresh("w", 256).(phase := Intended, sendPermit := true)])
    ensures Reachable(t, h)
  {
    var intend := On(Op.SendIntent, i).(worker := Some("w"));
    ReachableStep(s, h, intend);
    t := Step(s, intend).state;
  }

  lemma SendByW(s: State, h: History, i: string) returns (t: State, k: History)
    requires Reachable(s, h) && s.available && !s.closed && s.expiresAt == 100
    requires s.receipts == map[i := Fresh("w", 256).(phase := Phase.Audited)]
    ensures Reachable(t, k) && t.knownGrants == s.knownGrants
    ensures k == h.(sent := h.sent + [(s.grantId, i)])
  {
    t := IntendByW(s, h, i);
    var send := On(Send, i).(worker := Some("w"));
    ReachableStep(t, h, send);
    k := Observe(h, s.grantId, send, ProviderSent);
    t := Step(t, send).state;
  }

  /** Under any grant id extended after a colon, for any invocation: a claim still in progress whose identity is in the
      completion journal already. */
  lemma ColonsCollide(g: string, x: string, i: string) returns (s: State, h: History)
    ensures Reachable(s, h) && s.knownGrants == {g, g + ":" + x}
    ensures i in s.receipts && s.receipts[i].phase == Phase.Claimed && Identity(s.grantId, i) in s.completionEvents
  {
    s, h := Impersonation(g, x, i);
  }

  /** And from there a call that is sent although it was never accepted: reconciliation takes the acceptance of another
      grant's call for its own. */
  lemma SentUnaccepted(g: string, x: string, i: string) returns (s: State, h: History)
    ensures Reachable(s, h) && s.knownGrants == {g, g + ":" + x}
    ensures (g + ":" + x, i) in h.sent && (g + ":" + x, i) !in h.accepted
  {
    s, h := Impersonation(g, x, i);
    s := ReconcileByW(s, h, i);
    s, h := SendByW(s, h, i);
  }

  // ----- exactly when the journals can be trusted -----

  /** The completion journal never speaks for a receipt in progress exactly when no grant id extends another. */
  lemma CompletionsExactly(grants: set<string>)
    ensures CompletionsTrusted(grants) <==> Separate(grants)
  {
    if Separate(grants) {
      forall s, h, i | Reachable(s, h) && s.knownGrants <= grants && i in s.receipts && !Terminal(s.receipts[i].phase)
        ensures Identity(s.grantId, i) !in s.completionEvents
      {
        UnfinishedNotPublished(s, h, i);
      }
    }
    if f, g :| f in grants && g in grants && Extends(f, g) {
      assert f == g + ":" + f[|g| + 1..];
      var s, h := ColonsCollide(g, f[|g| + 1..], "");
      assert "" in s.receipts && !CompletionsTrusted(grants);
    }
  }

  /** Every call sent was itself accepted exactly when no grant id extends another. */
  lemma AcceptancesExactly(grants: set<string>)
    ensures AcceptancesTrusted(grants) <==> Separate(grants)
  {
    if Separate(grants) {
      forall s, h, c | Reachable(s, h) && s.knownGrants <= grants && c in h.sent
        ensures c in h.accepted
      {
        SentWasAccepted(s, h, c);
      }
    }
    if f, g :| f in grants && g in grants && Extends(f, g) {
      assert f == g + ":" + f[|g| + 1..];
      var s, h := SentUnaccepted(g, f[|g| + 1..], "");
      assert (f, "") in h.sent && !AcceptancesTrusted(grants);
    }
  }
}
