/** The recovery reference model of the connector relay: data model, the effect of one
    event as a function, and the class whose `Apply` has that effect. */
module Relay {
  import opened Prelude

  datatype Phase = Claimed | Audited | Intended | Completed | NotSent | OutcomeUnknown

  predicate Terminal(p: Phase) {
    p == Phase.Completed || p == Phase.NotSent || p == Phase.OutcomeUnknown
  }

  datatype Receipt = Receipt(
    phase: Phase,
    owner: string,
    fence: int,
    ownerAlive: bool,
    sendPermit: bool,
    sends: int,
    outboxPending: bool,
    reservedBytes: int,
    terminalAt: Option<int>)

  /** A receipt that still occupies a completion slot. */
  predicate Outstanding(r: Receipt) {
    !Terminal(r.phase) || r.outboxPending
  }

  datatype Op =
    | Availability | Restore | FreshGrant
    | Revoke | Expire | Renew | Claim
    | Crash | Recover | PublishCompletion | Prune
    | AcceptAudit | ReconcileAudit | SendIntent | Send | Complete
    | UnknownOp

  /** An event dictionary: `None` is an absent key. */
  datatype Event = Event(
    op: Op,
    invocation: Option<string>,
    now: Option<int>,
    available: Option<bool>,
    epoch: Option<int>,
    grantId: Option<string>,
    keyId: Option<string>,
    expiresAt: Option<int>,
    worker: Option<string>,
    fence: Option<int>,
    metadataBytes: Option<int>,
    auditAvailable: Option<bool>,
    acknowledged: Option<bool>,
    committed: Option<bool>)
  {
    function Invocation(): string { invocation.GetOr("request-a") }
    function Now(): int { now.GetOr(1) }
    function Fence(): int { fence.GetOr(1) }
    function MetadataBytes(): int { metadataBytes.GetOr(256) }
    function AuditAvailable(): bool { auditAvailable.GetOr(true) }
    function Acknowledged(): bool { acknowledged.GetOr(true) }
    function Committed(): bool { committed.GetOr(true) }
  }

  /** An event that names only its operation. */
  function Bare(op: Op): Event {
    Event(op, None, None, None, None, None, None, None, None, None, None, None, None, None)
  }

  datatype Outcome =
    | Available | Unavailable
    | EpochNotAdvancing | RestoreFenced
    | FreshAuthorityRequired | RecoveryRequired | FreshGrantInstalled
    | GrantMismatch | KeyMismatch | GrantClosed | NotExpired | StoreUnavailable
    | RenewalNotExtending | Renewed
    | EpochMismatch | Replay | TenantBacklogStale | TenantBacklogFull | TenantMetadataFull | Claimed
    | NoReceipt | OwnerCrashed | TerminalPreserved | NotSent | OutcomeUnknown
    | NoPendingCompletion | AuditUnavailable | AuditAckLost | CompletionRecorded
    | RetentionRequired | Pruned
    | Fenced | PhaseRejected | AcceptanceNotConfirmed | Audited
    | AuthorityClosed | SendIntent | IntentAckLost
    | NoSendPermit | ProviderSent | TerminalAckLost | Completed
    | KeyError | ValueError
  {
    /** The exceptions: the fixture runner lets them end the run. */
    predicate Raised() { KeyError? || ValueError? }
  }

  datatype State = State(
    epoch: int,
    expiresAt: int,
    grantId: string,
    keyId: string,
    closed: bool,
    available: bool,
    receipts: map<string, Receipt>,
    acceptanceEvents: set<string>,
    completionEvents: set<string>,
    retiredKeys: set<string>,
    retiredReceipts: map<string, map<string, Receipt>>,
    knownGrants: set<string>,
    totalSends: int,
    slotLimit: int,
    metadataLimit: int,
    ageLimit: int)

  /** Operator limits may only lower the tenant defaults. */
  predicate LimitsInRange(slots: int, metadata: int, age: int) {
    0 < slots <= 1024 && 0 < metadata <= 8 * 1024 * 1024 && 0 < age <= 60
  }

  function Initial(epoch: int, expiresAt: int, grantId: string, keyId: string,
                   slots: int, metadata: int, age: int): State
  {
    State(epoch, expiresAt, grantId, keyId, false, true, map[], {}, {}, {}, map[], {grantId}, 0,
          slots, metadata, age)
  }

  function Identity(grant: string, invocation: string): string {
    grant + ":" + invocation
  }

  // ----- outstanding receipts, live and retired -----

  function Slot(r: Receipt): int { if Outstanding(r) then 1 else 0 }

  function Bytes(r: Receipt): int { if Outstanding(r) then r.reservedBytes else 0 }

  ghost function PerGrant(f: Receipt -> int): map<string, Receipt> -> int {
    (receipts: map<string, Receipt>) => Tally(receipts, f)
  }

  ghost function OutstandingTotal(s: State, f: Receipt -> int): int {
    Tally(s.receipts, f) + Tally(s.retiredReceipts, PerGrant(f))
  }

  lemma RetiredTallyRemove(retired: map<string, map<string, Receipt>>, f: Receipt -> int, g: string)
    requires g in retired
    ensures Tally(retired, PerGrant(f)) == Tally(retired[g], f) + Tally(retired - {g}, PerGrant(f))
  {
    TallyRemove(retired, PerGrant(f), g);
  }

  /** A receipt whose completion has waited undelivered for the age limit. */
  predicate Stale(r: Receipt, now: int, age: int) {
    Outstanding(r) && r.outboxPending && r.terminalAt.Some? && now - r.terminalAt.value >= age
  }

  ghost predicate AnyStale(receipts: map<string, Receipt>, now: int, age: int) {
    exists i :: i in receipts && Stale(receipts[i], now, age)
  }

  ghost predicate SomeStale(s: State, now: int) {
    || AnyStale(s.receipts, now, s.ageLimit)
    || exists g :: g in s.retiredReceipts && AnyStale(s.retiredReceipts[g], now, s.ageLimit)
  }

  // ----- the effect of one event -----

  function FencedOff(r: Receipt): Receipt {
    r.(fence := r.fence + 1, ownerAlive := false, sendPermit := false)
  }

  function FenceAll(receipts: map<string, Receipt>): (fenced: map<string, Receipt>)
    ensures fenced.Keys == receipts.Keys
    ensures forall i :: i in receipts ==> fenced[i] == FencedOff(receipts[i])
  {
    map i | i in receipts :: FencedOff(receipts[i])
  }

  datatype Reply = Reply(state: State, outcome: Outcome)

  ghost function Step(s: State, e: Event): Reply {
    if e.op == Availability then
      if e.available.None? then Reply(s, KeyError)
      else Reply(s.(available := e.available.value), if e.available.value then Available else Unavailable)
    else if e.op == Restore then StepRestore(s, e)
    else if e.op == FreshGrant then StepFreshGrant(s, e)
    else if e.grantId.GetOr(s.grantId) != s.grantId then Reply(s, GrantMismatch)
    else if e.keyId.GetOr(s.keyId) != s.keyId then Reply(s, KeyMismatch)
    else if e.op == Revoke then Reply(s.(closed := true), GrantClosed)
    else if e.op == Expire then
      if e.Now() < s.expiresAt then Reply(s, NotExpired) else Reply(s.(closed := true), GrantClosed)
    else if e.op == Renew then StepRenew(s, e)
    else if e.op == Claim then StepClaim(s, e)
    else if e.Invocation() in s.receipts then StepReceipt(s, e)
    else Reply(s, NoReceipt)
  }

  function StepRestore(s: State, e: Event): Reply {
    if e.epoch.None? then Reply(s, KeyError)
    else if e.epoch.value <= s.epoch then Reply(s, EpochNotAdvancing)
    else
      Reply(s.(retiredKeys := s.retiredKeys + {s.keyId},
          epoch := e.epoch.value,
          closed := true,
          receipts := FenceAll(s.receipts)), RestoreFenced)
  }

  function StepFreshGrant(s: State, e: Event): Reply {
    if e.epoch.None? then Reply(s, KeyError)
    else if e.epoch.value != s.epoch then Reply(s, FreshAuthorityRequired)
    else if e.grantId.None? then Reply(s, KeyError)
    else if e.grantId.value in s.knownGrants then Reply(s, FreshAuthorityRequired)
    else if e.keyId.None? then Reply(s, KeyError)
    else if e.keyId.value in s.retiredKeys then Reply(s, FreshAuthorityRequired)
    else if !s.closed || exists i :: i in s.receipts && Outstanding(s.receipts[i]) then Reply(s, RecoveryRequired)
    else
      // The lookup of `expires_at` comes after the grant has already been exchanged.
      var exchanged := s.(retiredReceipts := s.retiredReceipts[s.grantId := s.receipts],
                          grantId := e.grantId.value,
                          keyId := e.keyId.value,
                          knownGrants := s.knownGrants + {e.grantId.value});
      if e.expiresAt.None? then Reply(exchanged, KeyError)
      else Reply(exchanged.(expiresAt := e.expiresAt.value, receipts := map[], closed := false), FreshGrantInstalled)
  }

  function StepRenew(s: State, e: Event): Reply {
    if !s.available then Reply(s, StoreUnavailable)
    else if s.closed || e.Now() >= s.expiresAt || e.epoch.GetOr(s.epoch) != s.epoch then Reply(s, GrantClosed)
    else if e.expiresAt.None? then Reply(s, KeyError)
    else if e.expiresAt.value <= s.expiresAt then Reply(s, RenewalNotExtending)
    else Reply(s.(expiresAt := e.expiresAt.value), Renewed)
  }

  ghost function StepClaim(s: State, e: Event): Reply {
    if !s.available then Reply(s, StoreUnavailable)
    else if e.epoch.GetOr(s.epoch) != s.epoch then Reply(s, EpochMismatch)
    else if s.closed || e.Now() >= s.expiresAt then Reply(s, GrantClosed)
    else if e.Invocation() in s.receipts then Reply(s, Replay)
    else if SomeStale(s, e.Now()) then Reply(s, TenantBacklogStale)
    else if OutstandingTotal(s, Slot) >= s.slotLimit then Reply(s, TenantBacklogFull)
    else if e.MetadataBytes() <= 0 then Reply(s, ValueError)
    else if OutstandingTotal(s, Bytes) + e.MetadataBytes() > s.metadataLimit then Reply(s, TenantMetadataFull)
    else if e.worker.None? then Reply(s, KeyError)
    else Reply(s.(receipts := s.receipts[e.Invocation() := Fresh(e.worker.value, e.MetadataBytes())]), Outcome.Claimed)
  }

  function Fresh(worker: string, charge: int): Receipt {
    Receipt(Phase.Claimed, worker, 1, true, false, 0, false, charge, None)
  }

  /** The state with the receipt of the event's invocation replaced. */
  function Put(s: State, e: Event, r: Receipt): State {
    s.(receipts := s.receipts[e.Invocation() := r])
  }

  function StepReceipt(s: State, e: Event): Reply
    requires e.Invocation() in s.receipts
  {
    var r := s.receipts[e.Invocation()];
    match e.op
    case Crash => Reply(Put(s, e, r.(ownerAlive := false, sendPermit := false)), OwnerCrashed)
    case Recover =>
      if !s.available then Reply(s, StoreUnavailable)
      else if Terminal(r.phase) then Reply(s, TerminalPreserved)
      else
        var phase := if r.phase == Intended then Phase.OutcomeUnknown else Phase.NotSent;
        Reply(Put(s, e, FencedOff(r).(phase := phase, outboxPending := true, terminalAt := Some(e.Now()))),
         if r.phase == Intended then Outcome.OutcomeUnknown else Outcome.NotSent)
    case PublishCompletion =>
      if !Terminal(r.phase) || !r.outboxPending then Reply(s, NoPendingCompletion)
      else if !e.AuditAvailable() then Reply(s, AuditUnavailable)
      else
        var recorded := s.(completionEvents := s.completionEvents + {Identity(s.grantId, e.Invocation())});
        if !e.Acknowledged() then Reply(recorded, AuditAckLost)
        else Reply(Put(recorded, e, r.(outboxPending := false)), CompletionRecorded)
    case Prune =>
      if !s.available then Reply(s, StoreUnavailable)
      else if !s.closed || e.Now() < s.expiresAt + 60 || Outstanding(r) then Reply(s, RetentionRequired)
      else Reply(s.(receipts := s.receipts - {e.Invocation()}), Pruned)
    case _ =>
      if e.worker != Some(r.owner) || e.Fence() != r.fence || !r.ownerAlive then Reply(s, Fenced)
      else if !s.available then Reply(s, StoreUnavailable)
      else StepWorker(s, e, r)
  }

  /** The operations only the live, unfenced owner may perform. */
  function StepWorker(s: State, e: Event, r: Receipt): Reply {
    match e.op
    case AcceptAudit =>
      if r.phase != Phase.Claimed then Reply(s, PhaseRejected)
      else if !e.AuditAvailable() then Reply(s, AuditUnavailable)
      else
        var recorded := s.(acceptanceEvents := s.acceptanceEvents + {Identity(s.grantId, e.Invocation())});
        if !e.Acknowledged() then Reply(recorded, AuditAckLost)
        else Reply(Put(recorded, e, r.(phase := Phase.Audited)), Outcome.Audited)
    case ReconcileAudit =>
      if r.phase != Phase.Claimed then Reply(s, PhaseRejected)
      else if Identity(s.grantId, e.Invocation()) !in s.acceptanceEvents then Reply(s, AcceptanceNotConfirmed)
      else Reply(Put(s, e, r.(phase := Phase.Audited)), Outcome.Audited)
    case SendIntent =>
      if AuthorityLost(s, e) then Reply(s, AuthorityClosed)
      else if r.phase != Phase.Audited then Reply(s, PhaseRejected)
      else Reply(Put(s, e, r.(phase := Intended, sendPermit := e.Acknowledged())),
            if e.Acknowledged() then Outcome.SendIntent else IntentAckLost)
    case Send =>
      if AuthorityLost(s, e) then Reply(s, AuthorityClosed)
      else if r.phase != Intended || !r.sendPermit then Reply(s, NoSendPermit)
      else
        var sent := r.(sendPermit := false, sends := r.sends + 1);
        Reply(Put(s, e, sent).(totalSends := s.totalSends + 1), ProviderSent)
    case Complete =>
      if r.phase != Intended then Reply(s, PhaseRejected)
      else if !e.Committed() then Reply(s, TerminalAckLost)
      else Reply(Put(s, e, r.(phase := Phase.Completed, sendPermit := false, outboxPending := true,
                         terminalAt := Some(e.Now()))),
            if e.Acknowledged() then Outcome.Completed else TerminalAckLost)
    case _ => Reply(s, ValueError)
  }

  predicate AuthorityLost(s: State, e: Event) {
    s.closed || e.Now() >= s.expiresAt || e.epoch.GetOr(s.epoch) != s.epoch
  }

  // ----- the model object -----

  class RecoveryModel {
    var epoch: int
    var expiresAt: int
    var grantId: string
    var keyId: string
    var closed: bool
    var available: bool
    var receipts: map<string, Receipt>
    var acceptanceEvents: set<string>
    var completionEvents: set<string>
    var retiredKeys: set<string>
    var retiredReceipts: map<string, map<string, Receipt>>
    var knownGrants: set<string>
    var totalSends: int
    const slotLimit: int
    const metadataLimit: int
    const ageLimit: int

    ghost function Abstract(): State
      reads this
    {
      State(epoch, expiresAt, grantId, keyId, closed, available, receipts, acceptanceEvents, completionEvents,
            retiredKeys, retiredReceipts, knownGrants, totalSends, slotLimit, metadataLimit, ageLimit)
    }

    constructor (epoch: int, expiresAt: int, grantId: string, keyId: string, slots: int, metadata: int, age: int)
      ensures Abstract() == Initial(epoch, expiresAt, grantId, keyId, slots, metadata, age)
    {
      this.epoch, this.expiresAt, this.grantId, this.keyId := epoch, expiresAt, grantId, keyId;
      closed, available := false, true;
      receipts, acceptanceEvents, completionEvents := map[], {}, {};
      retiredKeys, retiredReceipts, knownGrants := {}, map[], {grantId};
      totalSends := 0;
      slotLimit, metadataLimit, ageLimit := slots, metadata, age;
    }

    /** A model for the given fixture, or none when its limits raise the tenant defaults. */
    static method Open(epoch: int, expiresAt: int, grantId: string, keyId: string,
                       slots: int, metadata: int, age: int) returns (model: RecoveryModel?)
      ensures model != null <==> 0 < slots <= 1024 && 0 < metadata <= 8_388_608 && 0 < age <= 60
      ensures model != null ==> fresh(model)
                                && model.Abstract() == Initial(epoch, expiresAt, grantId, keyId, slots, metadata, age)
    {
      model := null;
      if LimitsInRange(slots, metadata, age) {
        model := new RecoveryModel(epoch, expiresAt, grantId, keyId, slots, metadata, age);
      }
    }

    /** Slots, bytes and staleness of the outstanding receipts in one dictionary. */
    static method Survey(receipts: map<string, Receipt>, now: int, age: int)
      returns (slots: int, bytes: int, stale: bool)
      ensures slots == Tally(receipts, Slot) && bytes == Tally(receipts, Bytes)
      ensures stale <==> AnyStale(receipts, now, age)
    {
      slots, bytes, stale := 0, 0, false;
      var rest := receipts;
      while rest.Keys != {}
        invariant rest.Keys <= receipts.Keys && forall i :: i in rest ==> rest[i] == receipts[i]
        invariant slots + Tally(rest, Slot) == Tally(receipts, Slot)
        invariant bytes + Tally(rest, Bytes) == Tally(receipts, Bytes)
        invariant stale <==> exists i :: i in receipts && i !in rest && Stale(receipts[i], now, age)
        decreases |rest|
      {
        var i :| i in rest.Keys;
        TallyRemove(rest, Slot, i);
        TallyRemove(rest, Bytes, i);
        if Outstanding(rest[i]) {
          slots, bytes := slots + 1, bytes + rest[i].reservedBytes;
          stale := stale || Stale(rest[i], now, age);
        }
        rest := rest - {i};
      }
    }

    /** The same over the dictionaries of all retired grants. */
    static method SurveyRetired(retired: map<string, map<string, Receipt>>, now: int, age: int)
      returns (slots: int, bytes: int, stale: bool)
      ensures slots == Tally(retired, PerGrant(Slot)) && bytes == Tally(retired, PerGrant(Bytes))
      ensures stale <==> exists g :: g in retired && AnyStale(retired[g], now, age)
    {
      slots, bytes, stale := 0, 0, false;
      var rest := retired;
      while rest.Keys != {}
        invariant rest.Keys <= retired.Keys && forall g :: g in rest ==> rest[g] == retired[g]
        invariant slots + Tally(rest, PerGrant(Slot)) == Tally(retired, PerGrant(Slot))
        invariant bytes + Tally(rest, PerGrant(Bytes)) == Tally(retired, PerGrant(Bytes))
        invariant stale ==> exists g :: g in retired && AnyStale(retired[g], now, age)
        invariant !stale ==> forall g :: g in retired && g !in rest ==> !AnyStale(retired[g], now, age)
        decreases rest.Keys
      {
        var g :| g in rest.Keys;
        RetiredTallyRemove(rest, Slot, g);
        RetiredTallyRemove(rest, Bytes, g);
        var s, b, t := Survey(rest[g], now, age);
        slots, bytes, stale := slots + s, bytes + b, stale || t;
        rest := rest - {g};
      }
    }

    /** What `outstanding()` is read for: its length, its reserved bytes, and whether some member is stale. */
    method SurveyOutstanding(now: int) returns (slots: int, bytes: int, stale: bool)
      ensures slots == OutstandingTotal(Abstract(), Slot) && bytes == OutstandingTotal(Abstract(), Bytes)
      ensures stale <==> SomeStale(Abstract(), now)
    {
      slots, bytes, stale := Survey(receipts, now, ageLimit);
      var s, b, t := SurveyRetired(retiredReceipts, now, ageLimit);
      slots, bytes, stale := slots + s, bytes + b, stale || t;
    }

    method Apply(e: Event) returns (outcome: Outcome)
      modifies this
      ensures Reply(Abstract(), outcome) == Step(old(Abstract()), e)
    {
      if e.op == Availability {
        if e.available.None? {
          return KeyError;
        }
        available := e.available.value;
        return if available then Available else Unavailable;
      }
      if e.op == Restore {
        outcome := ApplyRestore(e);
        return;
      }
      if e.op == FreshGrant {
        outcome := ApplyFreshGrant(e);
        return;
      }
      if e.grantId.GetOr(grantId) != grantId {
        return GrantMismatch;
      }
      if e.keyId.GetOr(keyId) != keyId {
        return KeyMismatch;
      }
      if e.op == Revoke {
        closed := true;
        return GrantClosed;
      }
      if e.op == Expire {
        if e.Now() < expiresAt {
          return NotExpired;
        }
        closed := true;
        return GrantClosed;
      }
      if e.op == Renew {
        outcome := ApplyRenew(e);
        return;
      }
      if e.op == Claim {
        outcome := ApplyClaim(e);
        return;
      }
      if e.Invocation() !in receipts {
        return NoReceipt;
      }
      outcome := ApplyToReceipt(e);
    }

    method ApplyRestore(e: Event) returns (outcome: Outcome)
      modifies this
      ensures Reply(Abstract(), outcome) == StepRestore(old(Abstract()), e)
    {
      if e.epoch.None? {
        return KeyError;
      }
      if e.epoch.value <= epoch {
        return EpochNotAdvancing;
      }
      retiredKeys := retiredKeys + {keyId};
      epoch := e.epoch.value;
      closed := true;
      FenceReceipts();
      return RestoreFenced;
    }

    method FenceReceipts()
      modifies this`receipts
      ensures receipts == FenceAll(old(receipts))
    {
      var rest := receipts.Keys;
      while rest != {}
        invariant rest <= receipts.Keys == old(receipts.Keys)
        invariant forall i :: i in receipts ==>
          receipts[i] == if i in rest then old(receipts[i]) else FencedOff(old(receipts[i]))
        decreases rest
      {
        var i :| i in rest;
        receipts := receipts[i := FencedOff(receipts[i])];
        rest := rest - {i};
      }
    }

    method ApplyFreshGrant(e: Event) returns (outcome: Outcome)
      modifies this
      ensures Reply(Abstract(), outcome) == StepFreshGrant(old(Abstract()), e)
    {
      if e.epoch.None? {
        return KeyError;
      }
      if e.epoch.value != epoch {
        return FreshAuthorityRequired;
      }
      if e.grantId.None? {
        return KeyError;
      }
      if e.grantId.value in knownGrants {
        return FreshAuthorityRequired;
      }
      if e.keyId.None? {
        return KeyError;
      }
      if e.keyId.value in retiredKeys {
        return FreshAuthorityRequired;
      }
      if !closed || exists i :: i in receipts && Outstanding(receipts[i]) {
        return RecoveryRequired;
      }
      retiredReceipts := retiredReceipts[grantId := receipts];
      grantId, keyId := e.grantId.value, e.keyId.value;
      knownGrants := knownGrants + {grantId};
      if e.expiresAt.None? {
        return KeyError;
      }
      expiresAt := e.expiresAt.value;
      receipts := map[];
      closed := false;
      return FreshGrantInstalled;
    }

    method ApplyRenew(e: Event) returns (outcome: Outcome)
      modifies this
      ensures Reply(Abstract(), outcome) == StepRenew(old(Abstract()), e)
    {
      if !available {
        return StoreUnavailable;
      }
      if closed || e.Now() >= expiresAt || e.epoch.GetOr(epoch) != epoch {
        return GrantClosed;
      }
      if e.expiresAt.None? {
        return KeyError;
      }
      if e.expiresAt.value <= expiresAt {
        return RenewalNotExtending;
      }
      expiresAt := e.expiresAt.value;
      return Renewed;
    }

    method ApplyClaim(e: Event) returns (outcome: Outcome)
      modifies this
      ensures Reply(Abstract(), outcome) == StepClaim(old(Abstract()), e)
    {
      if !available {
        return StoreUnavailable;
      }
      if e.epoch.GetOr(epoch) != epoch {
        return EpochMismatch;
      }
      if closed || e.Now() >= expiresAt {
        return GrantClosed;
      }
      if e.Invocation() in receipts {
        return Replay;
      }
      var slots, bytes, stale := SurveyOutstanding(e.Now());
      if stale {
        return TenantBacklogStale;
      }
      if slots >= slotLimit {
        return TenantBacklogFull;
      }
      var charge := e.MetadataBytes();
      if charge <= 0 {
        return ValueError;
      }
      if bytes + charge > metadataLimit {
        return TenantMetadataFull;
      }
      if e.worker.None? {
        return KeyError;
      }
      receipts := receipts[e.Invocation() := Fresh(e.worker.value, charge)];
      return Outcome.Claimed;
    }

    method ApplyToReceipt(e: Event) returns (outcome: Outcome)
      requires e.Invocation() in receipts
      modifies this
      ensures Reply(Abstract(), outcome) == StepReceipt(old(Abstract()), e)
    {
      var invocation := e.Invocation();
      var receipt := receipts[invocation];
      match e.op
      case Crash =>
        receipts := receipts[invocation := receipt.(ownerAlive := false, sendPermit := false)];
        return OwnerCrashed;
      case Recover =>
        if !available {
          return StoreUnavailable;
        }
        if Terminal(receipt.phase) {
          return TerminalPreserved;
        }
        var recovered := receipt.(fence := receipt.fence + 1, ownerAlive := false, sendPermit := false);
        recovered := recovered.(phase := if receipt.phase == Intended then Phase.OutcomeUnknown else Phase.NotSent);
        recovered := recovered.(outboxPending := true, terminalAt := Some(e.Now()));
        receipts := receipts[invocation := recovered];
        return if receipt.phase == Intended then Outcome.OutcomeUnknown else Outcome.NotSent;
      case PublishCompletion =>
        if !Terminal(receipt.phase) || !receipt.outboxPending {
          return NoPendingCompletion;
        }
        if !e.AuditAvailable() {
          return AuditUnavailable;
        }
        completionEvents := completionEvents + {grantId + ":" + invocation};
        if !e.Acknowledged() {
          return AuditAckLost;
        }
        receipts := receipts[invocation := receipt.(outboxPending := false)];
        return CompletionRecorded;
      case Prune =>
        if !available {
          return StoreUnavailable;
        }
        if !closed || e.Now() < expiresAt + 60 || !Terminal(receipt.phase) || receipt.outboxPending {
          return RetentionRequired;
        }
        receipts := receipts - {invocation};
        return Pruned;
      case _ =>
        if e.worker != Some(receipt.owner) || e.Fence() != receipt.fence || !receipt.ownerAlive {
          return Fenced;
        }
        if !available {
          return StoreUnavailable;
        }
        outcome := ApplyAsOwner(e, receipt);
    }

    method ApplyAsOwner(e: Event, receipt: Receipt) returns (outcome: Outcome)
      modifies this
      ensures Reply(Abstract(), outcome) == StepWorker(old(Abstract()), e, receipt)
    {
      var invocation := e.Invocation();
      var lost := closed || e.Now() >= expiresAt || e.epoch.GetOr(epoch) != epoch;
      match e.op
      case AcceptAudit =>
        if receipt.phase != Phase.Claimed {
          return PhaseRejected;
        }
        if !e.AuditAvailable() {
          return AuditUnavailable;
        }
        acceptanceEvents := acceptanceEvents + {grantId + ":" + invocation};
        if !e.Acknowledged() {
          return AuditAckLost;
        }
        receipts := receipts[invocation := receipt.(phase := Phase.Audited)];
        return Outcome.Audited;
      case ReconcileAudit =>
        if receipt.phase != Phase.Claimed {
          return PhaseRejected;
        }
        if grantId + ":" + invocation !in acceptanceEvents {
          return AcceptanceNotConfirmed;
        }
        receipts := receipts[invocation := receipt.(phase := Phase.Audited)];
        return Outcome.Audited;
      case SendIntent =>
        if lost {
          return AuthorityClosed;
        }
        if receipt.phase != Phase.Audited {
          return PhaseRejected;
        }
        receipts := receipts[invocation := receipt.(phase := Intended, sendPermit := e.Acknowledged())];
        return if e.Acknowledged() then Outcome.SendIntent else IntentAckLost;
      case Send =>
        if lost {
          return AuthorityClosed;
        }
        if receipt.phase != Intended || !receipt.sendPermit {
          return NoSendPermit;
        }
        receipts := receipts[invocation := receipt.(sendPermit := false, sends := receipt.sends + 1)];
        totalSends := totalSends + 1;
        return ProviderSent;
      case Complete =>
        if receipt.phase != Intended {
          return PhaseRejected;
        }
        if !e.Committed() {
          return TerminalAckLost;
        }
        receipts := receipts[invocation := receipt.(phase := Phase.Completed, sendPermit := false,
                                                    outboxPending := true, terminalAt := Some(e.Now()))];
        return if e.Acknowledged() then Outcome.Completed else TerminalAckLost;
      case _ =>
        return ValueError;
    }
  }
}
