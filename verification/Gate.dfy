/** The per-caller in-flight gate and its permits. */
module Gate {
  import opened Prelude

  type Principal = string

  /** The counters, and the permits that are held. */
  datatype GateState = GateState(inflight: map<Principal, nat>, live: multiset<Principal>)

  datatype GateEvent = Acquire(caller: Principal) | Drop(caller: Principal)

  function Count(inflight: map<Principal, nat>, caller: Principal): nat {
    if caller in inflight then inflight[caller] else 0
  }

  function SaturatingSub(a: nat, b: nat): nat { if a < b then 0 else a - b }

  predicate Grants(limit: nat, s: GateState, caller: Principal) { Count(s.inflight, caller) < limit }

  /** One acquisition or drop. An acquisition leaves an entry behind even when it is refused. */
  function GateStep(limit: nat, s: GateState, e: GateEvent): GateState {
    var count := Count(s.inflight, e.caller);
    match e
    case Acquire(caller) =>
      if count >= limit then s.(inflight := s.inflight[caller := count])
      else GateState(s.inflight[caller := count + 1], s.live + multiset{caller})
    case Drop(caller) =>
      var left := SaturatingSub(count, 1);
      GateState(if left == 0 then s.inflight - {caller} else s.inflight[caller := left], s.live - multiset{caller})
  }

  /** `limit` as the configuration admits it. */
  function MaxInflightPerCaller(value: nat): nat { if value < 1 then 1 else value }

  class CallerInflightGate {
    const limit: nat
    var inflight: map<Principal, nat>
    /** The permits handed out and not yet dropped. */
    ghost var live: multiset<Principal>

    ghost function Abstract(): GateState
      reads this
    {
      GateState(inflight, live)
    }

    constructor (limit: nat)
      ensures this.limit == limit && Abstract() == GateState(map[], multiset{})
    {
      this.limit, inflight, live := limit, map[], multiset{};
    }

    /** The permit, which carries the caller it belongs to, or none when the caller is at the limit. */
    method TryAcquire(caller: Principal) returns (permit: Option<Principal>)
      modifies this
      ensures Abstract() == GateStep(limit, old(Abstract()), Acquire(caller))
      ensures permit == if Grants(limit, old(Abstract()), caller) then Some(caller) else None
    {
      if caller !in inflight {
        inflight := inflight[caller := 0];
      }
      if inflight[caller] >= limit {
        return None;
      }
      inflight := inflight[caller := inflight[caller] + 1];
      live := live + multiset{caller};
      return Some(caller);
    }

    /** Drops a permit. */
    method Release(permit: Principal)
      requires permit in live
      modifies this
      ensures Abstract() == GateStep(limit, old(Abstract()), Drop(permit))
    {
      if permit !in inflight {
        inflight := inflight[permit := 0];
      }
      inflight := inflight[permit := SaturatingSub(inflight[permit], 1)];
      if inflight[permit] == 0 {
        inflight := inflight - {permit};
      }
      live := live - multiset{permit};
    }
  }

  // ----- runs -----

  function GateRun(limit: nat, events: seq<GateEvent>): GateState {
    if events == [] then GateState(map[], multiset{})
    else GateStep(limit, GateRun(limit, events[..|events| - 1]), events[|events| - 1])
  }

  /** Only permits that are held are dropped. */
  predicate Owned(limit: nat, events: seq<GateEvent>) {
    events == []
    || (Owned(limit, events[..|events| - 1])
        && (events[|events| - 1].Drop? ==> events[|events| - 1].caller in GateRun(limit, events[..|events| - 1]).live))
  }

  /** The entry of a caller is the number of its live permits, present exactly when there are any, and in the limit. */
  ghost predicate Exact(limit: nat, s: GateState) {
    forall caller ::
      && (caller in s.inflight <==> caller in s.live)
      && Count(s.inflight, caller) == s.live[caller] <= limit
  }

  lemma StepExact(limit: nat, s: GateState, e: GateEvent)
    requires limit >= 1 && Exact(limit, s) && (e.Drop? ==> e.caller in s.live)
    ensures Exact(limit, GateStep(limit, s, e))
  {
    var after := GateStep(limit, s, e);
    forall caller
      ensures caller in after.inflight <==> caller in after.live
      ensures Count(after.inflight, caller) == after.live[caller] <= limit
    {
      assert Count(s.inflight, caller) == s.live[caller];
      assert Count(s.inflight, e.caller) == s.live[e.caller];
    }
  }

  /** Under every interleaving of acquisitions and drops the counters are exact. */
  lemma {:induction false} PermitsCounted(limit: nat, events: seq<GateEvent>)
    requires limit >= 1 && Owned(limit, events)
    ensures Exact(limit, GateRun(limit, events))
  {
    if events != [] {
      var n := |events| - 1;
      PermitsCounted(limit, events[..n]);
      StepExact(limit, GateRun(limit, events[..n]), events[n]);
    }
  }

  /** With no room at all nobody ever holds a permit, and every entry is a zero left by a refusal. */
  lemma {:induction false} ClosedGate(events: seq<GateEvent>)
    requires Owned(0, events)
    ensures GateRun(0, events).live == multiset{}
    ensures forall caller :: caller in GateRun(0, events).inflight ==> GateRun(0, events).inflight[caller] == 0
  {
    if events != [] {
      ClosedGate(events[..|events| - 1]);
    }
  }

  /** A dropped permit always finds a positive entry, so the subtraction never saturates. */
  lemma NeverSaturates(limit: nat, events: seq<GateEvent>, caller: Principal)
    requires Owned(limit, events + [Drop(caller)])
    ensures Count(GateRun(limit, events).inflight, caller) >= 1
  {
    assert (events + [Drop(caller)])[..|events|] == events;
    if limit == 0 {
      ClosedGate(events);
      assert false;
    } else {
      PermitsCounted(limit, events);
    }
  }

  ghost predicate LeavesZero(limit: nat, events: seq<GateEvent>) {
    Owned(limit, events)
    && exists caller :: caller in GateRun(limit, events).inflight && GateRun(limit, events).inflight[caller] == 0
  }

  /** An entry can be left at zero exactly when the limit is zero, which the configuration rules out. */
  lemma ZeroEntryIff(limit: nat)
    ensures (exists events :: LeavesZero(limit, events)) <==> limit == 0
    ensures forall value :: MaxInflightPerCaller(value) != 0 && (value != 0 ==> MaxInflightPerCaller(value) == value)
  {
    if limit == 0 {
      var events := [Acquire("caller")];
      assert events[..0] == [] && Owned(limit, events[..0]);
      assert "caller" in GateRun(limit, events).inflight;
      assert LeavesZero(limit, events);
    } else {
      forall events | Owned(limit, events)
        ensures !LeavesZero(limit, events)
      {
        PermitsCounted(limit, events);
      }
    }
  }

  // ----- callers do not affect each other -----

  function Only(events: seq<GateEvent>, caller: Principal): seq<GateEvent> {
    if events == [] then []
    else
      var last := events[|events| - 1];
      Only(events[..|events| - 1], caller) + (if last.caller == caller then [last] else [])
  }

  /** What a caller sees of the gate. */
  predicate SameFor(s: GateState, t: GateState, caller: Principal) {
    (caller in s.inflight <==> caller in t.inflight) && Count(s.inflight, caller) == Count(t.inflight, caller)
    && s.live[caller] == t.live[caller]
  }

  lemma OtherStep(limit: nat, s: GateState, e: GateEvent, caller: Principal)
    requires e.caller != caller
    ensures SameFor(GateStep(limit, s, e), s, caller)
  {
  }

  lemma OwnStep(limit: nat, s: GateState, t: GateState, e: GateEvent)
    requires SameFor(s, t, e.caller)
    ensures SameFor(GateStep(limit, s, e), GateStep(limit, t, e), e.caller)
  {
  }

  lemma OneMore(limit: nat, events: seq<GateEvent>, e: GateEvent)
    ensures GateRun(limit, events + [e]) == GateStep(limit, GateRun(limit, events), e)
    ensures Owned(limit, events + [e])
       <==> Owned(limit, events) && (e.Drop? ==> e.caller in GateRun(limit, events).live)
  {
  }

  /** A caller's entry, its permits and hence every answer it gets are those it would have had alone. */
  lemma {:induction false} CallersIndependent(limit: nat, events: seq<GateEvent>, caller: Principal)
    requires Owned(limit, events)
    ensures Owned(limit, Only(events, caller))
    ensures SameFor(GateRun(limit, events), GateRun(limit, Only(events, caller)), caller)
    ensures Grants(limit, GateRun(limit, events), caller)
       <==> Grants(limit, GateRun(limit, Only(events, caller)), caller)
  {
    if events != [] {
      var n := |events| - 1;
      var e, own := events[n], Only(events[..n], caller);
      CallersIndependent(limit, events[..n], caller);
      if e.caller == caller {
        OneMore(limit, own, e);
        OwnStep(limit, GateRun(limit, events[..n]), GateRun(limit, own), e);
      } else {
        assert Only(events, caller) == own;
        OtherStep(limit, GateRun(limit, events[..n]), e, caller);
      }
    }
  }
}
