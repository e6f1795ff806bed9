/** The ingress pump: which events reach the caller, and how often one event is tried. */
module Ingress {
  import opened Prelude

  const MAX_FORWARD_ATTEMPTS: int := 3

  /** One delivery of an event: the request it names, the server's count of its deliveries, and what becomes of its
      publication and of its acknowledgement. */
  datatype Delivery = Delivery(event: nat, reqId: Option<string>, attempt: int, published: bool, confirmed: bool)

  datatype Item = Event(delivery: Delivery) | FetchError | Shutdown

  datatype Reaction = Skipped | PutOff | Given | Done(confirmed: bool)

  /** A pump for one request passes over the events of others; a pump for a task takes them all. */
  predicate Wanted(demux: Option<string>, d: Delivery) { demux.None? || d.reqId == demux }

  /** What the pump does with a delivery: acknowledge it unseen, ask for it again, give it up, or settle it. */
  function React(demux: Option<string>, d: Delivery): Reaction {
    if !Wanted(demux, d) then Skipped
    else if d.published then Done(d.confirmed)
    else if d.attempt >= MAX_FORWARD_ATTEMPTS then Given
    else PutOff
  }

  /** The deliveries before the first item that stops the pump. */
  function Consumed(items: seq<Item>): seq<Delivery> {
    if items == [] || !items[0].Event? then [] else [items[0].delivery] + Consumed(items[1..])
  }

  function Reactions(demux: Option<string>, ds: seq<Delivery>): seq<Reaction> {
    seq(|ds|, k requires 0 <= k < |ds| => React(demux, ds[k]))
  }

  /** The wanted deliveries, in order. */
  function Selected(demux: Option<string>, ds: seq<Delivery>): seq<Delivery> {
    if ds == [] then []
    else
      var last := ds[|ds| - 1];
      Selected(demux, ds[..|ds| - 1]) + (if Wanted(demux, last) then [last] else [])
  }

  /** The deliveries are answered and the wanted ones handed on. */
  ghost predicate Handled(demux: Option<string>, ds: seq<Delivery>, log: seq<Reaction>, sent: seq<Delivery>) {
    log == Reactions(demux, ds) && sent == Selected(demux, ds)
  }

  lemma OneMoreHandled(demux: Option<string>, ds: seq<Delivery>, log: seq<Reaction>, sent: seq<Delivery>, d: Delivery)
    requires Handled(demux, ds, log, sent)
    ensures Handled(demux, ds + [d], log + [React(demux, d)], if Wanted(demux, d) then sent + [d] else sent)
  {
    assert (ds + [d])[..|ds|] == ds;
  }

  lemma ConsumedFrom(items: seq<Item>, i: nat, done: seq<Delivery>)
    requires i < |items| && Consumed(items) == done + Consumed(items[i..])
    ensures items[i].Event? ==> Consumed(items) == done + [items[i].delivery] + Consumed(items[i + 1..])
    ensures !items[i].Event? ==> Consumed(items) == done
  {
    assert items[i..][1..] == items[i + 1..];
  }

  /** Handles the items until the stream ends, fails or is shut down: `log` tells what was done with each delivery, and
      `sent` which of them were handed to the publisher. */
  method ForwardStreamDeliveries(demux: Option<string>, items: seq<Item>)
      returns (log: seq<Reaction>, sent: seq<Delivery>)
    ensures log == Reactions(demux, Consumed(items))
    ensures sent == Selected(demux, Consumed(items))
  {
    log, sent := [], [];
    ghost var done: seq<Delivery> := [];
    assert items[0..] == items && items[|items|..] == [];
    for i := 0 to |items|
      invariant Consumed(items) == done + Consumed(items[i..])
      invariant Handled(demux, done, log, sent)
    {
      ConsumedFrom(items, i, done);
      if !items[i].Event? {
        return;
      }
      var d := items[i].delivery;
      OneMoreHandled(demux, done, log, sent, d);
      done := done + [d];
      if demux.Some? && d.reqId != demux {
        log := log + [Skipped];
        continue;
      }
      sent := sent + [d];
      if !d.published {
        log := log + [if d.attempt >= MAX_FORWARD_ATTEMPTS then Given else PutOff];
        continue;
      }
      log := log + [Done(d.confirmed)];
    }
    assert Consumed(items) == done;
  }

  // ----- one event over all its deliveries -----

  function Times(ds: seq<Delivery>, event: nat): nat {
    if ds == [] then 0
    else Times(ds[..|ds| - 1], event) + (if ds[|ds| - 1].event == event then 1 else 0)
  }

  /** The server numbers the deliveries of each event. */
  ghost predicate Counted(ds: seq<Delivery>) {
    forall k :: 0 <= k < |ds| ==> ds[k].attempt == Times(ds[..k], ds[k].event) + 1
  }

  /** How often the pump asks for an event again. */
  function PutOffs(demux: Option<string>, ds: seq<Delivery>, event: nat): nat {
    if ds == [] then 0
    else
      var last := ds[|ds| - 1];
      PutOffs(demux, ds[..|ds| - 1], event) + (if last.event == event && React(demux, last) == PutOff then 1 else 0)
  }

  lemma CountedPrefix(ds: seq<Delivery>)
    requires Counted(ds) && ds != []
    ensures Counted(ds[..|ds| - 1])
  {
    var before := ds[..|ds| - 1];
    forall k | 0 <= k < |before|
      ensures before[k].attempt == Times(before[..k], before[k].event) + 1
    {
      assert before[..k] == ds[..k];
    }
  }

  /** From the server's count alone: whatever the server delivers again, and however often, the pump asks for an event
      again at most twice. */
  lemma {:induction false} TwoPutOffs(demux: Option<string>, ds: seq<Delivery>, event: nat)
    requires Counted(ds)
    ensures PutOffs(demux, ds, event) <= 2 && PutOffs(demux, ds, event) <= Times(ds, event)
  {
    if ds != [] {
      CountedPrefix(ds);
      TwoPutOffs(demux, ds[..|ds| - 1], event);
    }
  }

  /** The server delivers an event again only while it is put off. */
  ghost predicate OnRequest(demux: Option<string>, ds: seq<Delivery>) {
    forall j, k :: 0 <= j < k < |ds| && ds[j].event == ds[k].event ==> React(demux, ds[j]) == PutOff
  }

  lemma {:induction false} AllPutOff(demux: Option<string>, ds: seq<Delivery>, event: nat)
    requires forall j :: 0 <= j < |ds| && ds[j].event == event ==> React(demux, ds[j]) == PutOff
    ensures PutOffs(demux, ds, event) == Times(ds, event)
  {
    if ds != [] {
      AllPutOff(demux, ds[..|ds| - 1], event);
    }
  }

  /** All deliveries of an event but the last are put off. */
  lemma {:induction false} OneNotPutOff(demux: Option<string>, ds: seq<Delivery>, event: nat)
    requires OnRequest(demux, ds)
    ensures Times(ds, event) <= PutOffs(demux, ds, event) + 1
  {
    if ds != [] {
      var n := |ds| - 1;
      if ds[n].event == event {
        AllPutOff(demux, ds[..n], event);
      } else {
        OneNotPutOff(demux, ds[..n], event);
      }
    }
  }

  /** A server that delivers an event again only on request delivers it at most three times. */
  lemma ThreeDeliveries(demux: Option<string>, ds: seq<Delivery>, event: nat)
    requires Counted(ds) && OnRequest(demux, ds)
    ensures Times(ds, event) <= 3
  {
    TwoPutOffs(demux, ds, event);
    OneNotPutOff(demux, ds, event);
  }

  /** What the pump does with the n-th delivery of an event: it passes over the event of another request, settles an
      event that was published, asks again for one that was not on its first two deliveries, and gives it up from the
      third on. */
  lemma ReactsExactly(demux: Option<string>, ds: seq<Delivery>, k: nat)
    requires Counted(ds) && k < |ds|
    ensures var d, n := ds[k], Times(ds[..k], ds[k].event) + 1;
            React(demux, d)
            == if demux.Some? && (d.reqId.None? || d.reqId.value != demux.value) then Skipped
               else if d.published then Done(d.confirmed)
               else if n == 1 || n == 2 then PutOff
               else Given
  {
  }

  // ----- what reaches the publisher -----

  /** The pump takes the items up to the first one that is no event. */
  lemma {:induction false} ConsumedExactly(items: seq<Item>)
    ensures var n := |Consumed(items)|;
            && n <= |items| && (n < |items| ==> !items[n].Event?)
            && forall k :: 0 <= k < n ==> items[k] == Event(Consumed(items)[k])
  {
    if items != [] && items[0].Event? {
      ConsumedExactly(items[1..]);
      var n := |Consumed(items)|;
      assert forall k :: 0 < k < n ==> items[k] == items[1..][k - 1];
      assert n < |items| ==> items[n] == items[1..][n - 1];
    }
  }

  /** The event belongs to the pump's request, or the pump serves a whole task. */
  predicate Concerns(demux: Option<string>, d: Delivery) {
    demux.None? || (d.reqId.Some? && d.reqId.value == demux.value)
  }

  /** The publisher gets each delivery that concerns the pump as often as it came, and no other. */
  lemma {:induction false} SelectedExactly(demux: Option<string>, ds: seq<Delivery>, d: Delivery)
    ensures multiset(Selected(demux, ds))[d] == if Concerns(demux, d) then multiset(ds)[d] else 0
  {
    if ds != [] {
      var n := |ds| - 1;
      SelectedExactly(demux, ds[..n], d);
      assert ds == ds[..n] + [ds[n]];
    }
  }
}
