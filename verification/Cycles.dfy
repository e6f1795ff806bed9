/** The three-colour depth-first search for recursive messages. */
module Cycles {
  import opened Prelude
  import opened Wit
  import opened Order

  // ----- the dependency graph -----

  predicate FieldsTarget(fields: seq<WitField>, b: FullName) {
    exists j :: 0 <= j < |fields| && b in fields[j].messageTargets
  }

  /** Some field of the record `a` refers to the message `b`. */
  predicate Edge(records: seq<WitRecord>, a: FullName, b: FullName) {
    exists i :: 0 <= i < |records| && records[i].fullName == a && FieldsTarget(records[i].fields, b)
  }

  /** A closed walk along dependency edges. */
  predicate ClosedWalk(records: seq<WitRecord>, walk: seq<FullName>) {
    && |walk| >= 2 && walk[0] == walk[|walk| - 1]
    && forall i :: 0 <= i < |walk| - 1 ==> Edge(records, walk[i], walk[i + 1])
  }

  ghost predicate HasCycle(records: seq<WitRecord>) {
    exists walk :: ClosedWalk(records, walk)
  }

  /** Every message comes after all those it depends on, and every record is listed. */
  ghost predicate TopologicalOrder(records: seq<WitRecord>, order: seq<FullName>) {
    && (forall i :: 0 <= i < |records| ==> records[i].fullName in order)
    && (forall i, b :: 0 <= i < |order| && Edge(records, order[i], b) ==> b in order[..i])
  }

  ghost predicate Ordered(records: seq<WitRecord>) {
    exists order :: TopologicalOrder(records, order)
  }

  lemma {:induction false} WalkDescends(records: seq<WitRecord>, order: seq<FullName>, walk: seq<FullName>, i: nat)
    requires TopologicalOrder(records, order) && walk != []
    requires forall k :: 0 <= k < |walk| - 1 ==> Edge(records, walk[k], walk[k + 1])
    requires i < |order| && order[i] == walk[0]
    ensures walk[|walk| - 1] in order[..i + 1]
    ensures |walk| > 1 ==> walk[|walk| - 1] in order[..i]
    decreases |walk|
  {
    if |walk| > 1 {
      assert Edge(records, order[i], walk[1]);
      var j :| 0 <= j < i && order[j] == walk[1];
      var rest := walk[1..];
      forall k | 0 <= k < |rest| - 1
        ensures Edge(records, rest[k], rest[k + 1])
      {
        assert rest[k] == walk[k + 1] && rest[k + 1] == walk[k + 2];
      }
      WalkDescends(records, order, rest, j);
    }
  }

  /** A closed walk would lead from the first listing of its start to an earlier one. */
  lemma {:induction false} NoWalkFrom(records: seq<WitRecord>, order: seq<FullName>, walk: seq<FullName>, i: nat)
    requires TopologicalOrder(records, order) && i < |order| && ClosedWalk(records, walk) && order[i] == walk[0]
    ensures false
    decreases i
  {
    WalkDescends(records, order, walk, i);
    var j :| 0 <= j < i && order[j] == walk[0];
    NoWalkFrom(records, order, walk, j);
  }

  lemma OrderedHasNoCycle(records: seq<WitRecord>, order: seq<FullName>)
    requires TopologicalOrder(records, order)
    ensures !HasCycle(records)
  {
    forall walk | ClosedWalk(records, walk)
      ensures false
    {
      assert Edge(records, walk[0], walk[1]);
      var i :| 0 <= i < |order| && order[i] == walk[0];
      NoWalkFrom(records, order, walk, i);
    }
  }

  lemma CyclicNotOrdered(records: seq<WitRecord>)
    requires HasCycle(records)
    ensures !Ordered(records)
  {
    if order :| TopologicalOrder(records, order) {
      OrderedHasNoCycle(records, order);
      assert false;
    }
  }

  // ----- building the adjacency lists -----

  type Graph = map<FullName, seq<FullName>>

  function Dependencies(graph: Graph, name: FullName): seq<FullName> {
    if name in graph then graph[name] else []
  }

  method BuildDependencies(records: seq<WitRecord>) returns (graph: Graph)
    ensures Adjacency(graph, records)
    ensures forall a :: a in graph ==> SortedBy(graph[a], Below)
  {
    graph := map[];
    for i := 0 to |records|
      invariant Adjacency(graph, records[..i])
      invariant forall a :: a in graph ==> SortedBy(graph[a], Below)
    {
      var record := records[i];
      var targets := DistinctTargets(record.fields);
      var merged := Dependencies(graph, record.fullName) + targets;
      AdjacencySnoc(graph, records, i, targets);
      SortBelow(merged);
      graph := graph[record.fullName := Sort(merged, Below)];
    }
    assert records[..|records|] == records;
  }

  /** The lists of the graph are the edges of the records. */
  ghost predicate Adjacency(graph: Graph, records: seq<WitRecord>) {
    forall a, b :: b in Dependencies(graph, a) <==> Edge(records, a, b)
  }

  lemma AdjacencySnoc(graph: Graph, records: seq<WitRecord>, i: nat, targets: seq<FullName>)
    requires i < |records| && Adjacency(graph, records[..i])
    requires forall b :: b in targets <==> FieldsTarget(records[i].fields, b)
    ensures var name := records[i].fullName;
            Adjacency(graph[name := Sort(Dependencies(graph, name) + targets, Below)], records[..i + 1])
  {
    var name := records[i].fullName;
    var merged := Dependencies(graph, name) + targets;
    var after := graph[name := Sort(merged, Below)];
    EdgeSnoc(records, i);
    forall a, b
      ensures b in Dependencies(after, a) <==> b in Dependencies(graph, a) || (a == name && b in targets)
    {
      SortMembers(merged, Below, b);
    }
    forall a, b
      ensures b in Dependencies(after, a) <==> Edge(records[..i + 1], a, b)
    {
      assert b in Dependencies(graph, a) <==> Edge(records[..i], a, b);
    }
  }

  lemma EdgeSnoc(records: seq<WitRecord>, i: nat)
    requires i < |records|
    ensures forall a, b :: Edge(records[..i + 1], a, b)
              <==> Edge(records[..i], a, b) || (a == records[i].fullName && FieldsTarget(records[i].fields, b))
  {
    var before, after := records[..i], records[..i + 1];
    assert after == before + [records[i]];
    forall a, b
      ensures Edge(after, a, b)
         <==> Edge(before, a, b) || (a == records[i].fullName && FieldsTarget(records[i].fields, b))
    {
      if k :| 0 <= k < |after| && after[k].fullName == a && FieldsTarget(after[k].fields, b) {
        assert k == i || before[k] == after[k];
      }
      if k :| 0 <= k < |before| && before[k].fullName == a && FieldsTarget(before[k].fields, b) {
        assert after[k] == before[k];
      }
      assert after[i] == records[i];
    }
  }

  /** The targets of a record's fields, each once. */
  method DistinctTargets(fields: seq<WitField>) returns (targets: seq<FullName>)
    ensures forall b :: b in targets <==> FieldsTarget(fields, b)
    ensures forall j, k :: 0 <= j < k < |targets| ==> targets[j] != targets[k]
  {
    targets := [];
    var seen: set<FullName> := {};
    for i := 0 to |fields|
      invariant forall b :: b in seen <==> b in targets
      invariant forall b :: b in targets <==> FieldsTarget(fields[..i], b)
      invariant forall j, k :: 0 <= j < k < |targets| ==> targets[j] != targets[k]
    {
      var messageTargets := fields[i].messageTargets;
      for j := 0 to |messageTargets|
        invariant forall b :: b in seen <==> b in targets
        invariant forall b :: b in targets <==> FieldsTarget(fields[..i], b) || b in messageTargets[..j]
        invariant forall j, k :: 0 <= j < k < |targets| ==> targets[j] != targets[k]
      {
        var messageTarget := messageTargets[j];
        assert messageTargets[..j + 1] == messageTargets[..j] + [messageTarget];
        if messageTarget !in seen {
          seen := seen + {messageTarget};
          targets := targets + [messageTarget];
        }
      }
      assert messageTargets[..|messageTargets|] == messageTargets;
      TargetSnoc(fields, i);
    }
    assert fields[..|fields|] == fields;
  }

  lemma TargetSnoc(fields: seq<WitField>, i: nat)
    requires i < |fields|
    ensures forall b ::
              FieldsTarget(fields[..i + 1], b) <==> FieldsTarget(fields[..i], b) || b in fields[i].messageTargets
  {
  }

  // ----- the search -----

  datatype Color = Visiting | Visited

  predicate Walk(graph: Graph, path: seq<FullName>) {
    forall i :: 0 <= i < |path| - 1 ==> path[i + 1] in Dependencies(graph, path[i])
  }

  predicate CyclicPath(graph: Graph, path: seq<FullName>) {
    |path| >= 2 && path[0] == path[|path| - 1] && Walk(graph, path)
  }

  class Search {
    const graph: Graph
    /** Every name the search can meet. */
    ghost const universe: set<FullName>
    var state: map<FullName, Color>
    var stack: seq<FullName>
    /** The visited names in the order in which they were finished. */
    ghost var finished: seq<FullName>

    ghost predicate Valid()
      reads this
    {
      && state.Keys <= universe
      && (forall n, d :: n in universe && d in Dependencies(graph, n) ==> d in universe)
      && (forall n :: n in stack <==> n in state && state[n] == Visiting)
      && (forall n :: n in finished <==> n in state && state[n] == Visited)
      && Walk(graph, stack)
      && (forall i, d :: 0 <= i < |finished| && d in Dependencies(graph, finished[i]) ==> d in finished[..i])
    }

    constructor (graph: Graph, ghost universe: set<FullName>)
      requires forall n, d :: n in universe && d in Dependencies(graph, n) ==> d in universe
      ensures Valid() && this.graph == graph && this.universe == universe
      ensures state == map[] && stack == [] && finished == []
    {
      this.graph, this.universe := graph, universe;
      state, stack, finished := map[], [], [];
    }

    /** Visits `name` and everything it depends on; a cycle met on the way is returned. */
    method Visit(name: FullName) returns (cycle: Option<seq<FullName>>)
      requires Valid() && name in universe && name !in state
      requires stack != [] ==> name in Dependencies(graph, stack[|stack| - 1])
      modifies this
      ensures cycle.Some? ==> CyclicPath(graph, cycle.value)
      ensures cycle.None? ==> Valid() && stack == old(stack) && name in finished
      ensures cycle.None? ==> old(finished) <= finished && old(state.Keys) <= state.Keys
      decreases universe - state.Keys
    {
      Enter(name);
      var dependencies := Dependencies(graph, name);
      for i := 0 to |dependencies|
        invariant Valid() && stack == old(stack) + [name] && name in state
        invariant old(finished) <= finished && old(state.Keys) <= state.Keys
        invariant forall j :: 0 <= j < i ==> dependencies[j] in finished
      {
        var dependency := dependencies[i];
        if dependency in state && state[dependency] == Visiting {
          var path := CycleThrough(dependency);
          return Some(path);
        }
        if dependency !in state {
          cycle := Visit(dependency);
          if cycle.Some? {
            return;
          }
        }
      }
      Retire(name);
      return None;
    }

    /** Colours `name` and pushes it. */
    method Enter(name: FullName)
      requires Valid() && name in universe && name !in state
      requires stack != [] ==> name in Dependencies(graph, stack[|stack| - 1])
      modifies this
      ensures Valid() && stack == old(stack) + [name] && finished == old(finished)
      ensures state == old(state)[name := Visiting] && name !in old(stack)
    {
      state := state[name := Visiting];
      stack := stack + [name];
    }

    /** The part of the stack from `dependency` on, closed by it. */
    method CycleThrough(dependency: FullName) returns (path: seq<FullName>)
      requires Valid() && dependency in stack && dependency in Dependencies(graph, stack[|stack| - 1])
      ensures CyclicPath(graph, path)
    {
      var start := 0;
      while stack[start] != dependency
        invariant 0 <= start < |stack| && dependency in stack[start..]
        decreases |stack| - start
      {
        start := start + 1;
      }
      ClosesWalk(start, dependency);
      return stack[start..] + [dependency];
    }

    lemma ClosesWalk(start: nat, dependency: FullName)
      requires Valid() && start < |stack| && stack[start] == dependency
      requires dependency in Dependencies(graph, stack[|stack| - 1])
      ensures CyclicPath(graph, stack[start..] + [dependency])
    {
    }

    /** Pops the finished name. */
    method Retire(name: FullName)
      requires Valid() && stack != [] && stack[|stack| - 1] == name && name !in stack[..|stack| - 1]
      requires forall d :: d in Dependencies(graph, name) ==> d in finished
      modifies this
      ensures Valid() && stack == old(stack)[..|old(stack)| - 1] && finished == old(finished) + [name]
      ensures state == old(state)[name := Visited]
    {
      ghost var was, done := stack, finished;
      stack := stack[..|stack| - 1];
      state := state[name := Visited];
      finished := finished + [name];
      assert was == stack + [name] && name in was && name !in done;
      forall i, d | 0 <= i < |finished| && d in Dependencies(graph, finished[i])
        ensures d in finished[..i]
      {
        if i < |done| {
          assert finished[..i] == done[..i];
        } else {
          assert finished[..i] == done;
        }
      }
      assert forall n :: n in finished <==> n in done || n == name;
    }
  }

  // ----- the whole detection -----

  ghost function AllNames(records: seq<WitRecord>): set<FullName> {
    (set i | 0 <= i < |records| :: records[i].fullName)
    + (set i, j, b | 0 <= i < |records| && 0 <= j < |records[i].fields|
                     && b in records[i].fields[j].messageTargets :: b)
  }

  lemma EdgeEndsNamed(records: seq<WitRecord>, a: FullName, b: FullName)
    requires Edge(records, a, b)
    ensures a in AllNames(records) && b in AllNames(records)
  {
  }

  /** The path of a cycle, or none. An error is reported exactly when the messages depend on each other in a circle;
      the path it names is a closed walk along real dependencies, and without an error the messages can be put
      in an order in which each follows all it depends on. */
  method DetectMessageCycles(records: seq<WitRecord>) returns (cycle: Option<seq<FullName>>)
    ensures cycle.Some? <==> HasCycle(records)
    ensures cycle.Some? ==> ClosedWalk(records, cycle.value)
    ensures cycle.None? <==> Ordered(records)
  {
    var graph := BuildDependencies(records);
    ghost var universe := AllNames(records);
    forall n, d | n in universe && d in Dependencies(graph, n)
      ensures d in universe
    {
      EdgeEndsNamed(records, n, d);
    }
    var search := new Search(graph, universe);
    for i := 0 to |records|
      invariant search.Valid() && search.stack == [] && search.graph == graph && search.universe == universe
      invariant forall j :: 0 <= j < i ==> records[j].fullName in search.finished
    {
      if records[i].fullName !in search.state {
        cycle := search.Visit(records[i].fullName);
        if cycle.Some? {
          assert ClosedWalk(records, cycle.value);
          CyclicNotOrdered(records);
          return;
        }
      }
    }
    cycle := None;
    ghost var order := search.finished;
    assert TopologicalOrder(records, order);
    OrderedHasNoCycle(records, order);
  }
}
