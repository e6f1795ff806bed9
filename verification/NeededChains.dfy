/** Which messages a schema needs: those that a chain of nestings and references leads to. */
module NeededChains {
  import opened Wit
  import opened Descriptors
  import opened Collect

  /** The message `m` pulls `t` in: `t` is nested in `m`, or it lies in the package and some field of `m`, not a map,
      holds it. Map entries are never pulled in. */
  ghost predicate Pulls(r: Registry, package: FullName, m: FullName, t: FullName) {
    && m in r.messages && t in r.messages && !r.messages[t].isMapEntry
    && (t in r.messages[m].nested || (r.messages[t].package == package && Holds(r.messages[m].fields, t)))
  }

  predicate Holds(fields: seq<FieldDescriptor>, t: FullName) {
    exists j :: 0 <= j < |fields| && fields[j].kind == MessageKind && !fields[j].isMap && fields[j].message == t
  }

  /** Each message pulls the next one in; the first is requested. */
  ghost predicate Chain(r: Registry, package: FullName, requested: set<FullName>, chain: seq<FullName>) {
    && chain != [] && chain[0] in requested && chain[0] in r.messages && !r.messages[chain[0]].isMapEntry
    && forall i, j :: 0 <= i < j < |chain| && j == i + 1 ==> Pulls(r, package, chain[i], chain[j])
  }

  ghost predicate Reached(r: Registry, package: FullName, requested: set<FullName>, m: FullName) {
    exists chain :: Chain(r, package, requested, chain) && chain[|chain| - 1] == m
  }

  lemma {:induction false} ChainNeeded(r: Registry, package: FullName, requested: set<FullName>, chain: seq<FullName>)
    requires Linked(r) && Chain(r, package, requested, chain)
    ensures chain[|chain| - 1] in Needed(r, package, requested)
  {
    var n := |chain| - 1;
    NeededIsClosed(r, package, requested);
    if n > 0 {
      var m, t := chain[n - 1], chain[n];
      ChainNeeded(r, package, requested, chain[..n]);
      assert Pulls(r, package, m, t);
      PulledNeeded(r, package, Needed(r, package, requested), m, t, requested);
    }
  }

  lemma PulledNeeded(r: Registry, package: FullName, s: set<FullName>, m: FullName, t: FullName,
                     requested: set<FullName>)
    requires ClosedSet(r, package, requested, s) && m in s && Pulls(r, package, m, t)
    ensures t in s
  {
    if t in r.messages[m].nested {
      assert NestingClosed(r, s, m);
    } else {
      assert ReferredBy(r, package, m, t);
    }
  }

  lemma ReachedOneMore(r: Registry, package: FullName, requested: set<FullName>, m: FullName, t: FullName)
    requires Reached(r, package, requested, m) && Pulls(r, package, m, t)
    ensures Reached(r, package, requested, t)
  {
    var chain :| Chain(r, package, requested, chain) && chain[|chain| - 1] == m;
    assert Chain(r, package, requested, chain + [t]);
  }

  lemma ReachedClosed(r: Registry, package: FullName, requested: set<FullName>, s: set<FullName>)
    requires Linked(r) && s == set m | m in r.messages && Reached(r, package, requested, m)
    ensures ClosedSet(r, package, requested, s)
  {
    forall m | m in requested && Collected(r, m)
      ensures m in s
    {
      assert Chain(r, package, requested, [m]);
    }
    forall m, j | m in s && 0 <= j < |r.messages[m].nested| && Collected(r, r.messages[m].nested[j])
      ensures r.messages[m].nested[j] in s
    {
      ReachedOneMore(r, package, requested, m, r.messages[m].nested[j]);
    }
    forall m, t | m in s && ReferredBy(r, package, m, t)
      ensures t in s
    {
      var fields := r.messages[m].fields;
      var j :| 0 <= j < |fields| && Refers(r, package, fields[j]) && fields[j].message == t;
      assert MessageLinked(r, r.messages[m]) && FieldLinked(r, fields[j]);
      ReachedOneMore(r, package, requested, m, t);
    }
  }

  /** A message is needed exactly when such a chain leads to it. */
  lemma NeededExactly(r: Registry, package: FullName, requested: set<FullName>, m: FullName)
    requires Linked(r)
    ensures m in Needed(r, package, requested) <==> Reached(r, package, requested, m)
  {
    if chain :| Chain(r, package, requested, chain) && chain[|chain| - 1] == m {
      ChainNeeded(r, package, requested, chain);
    }
    if m in Needed(r, package, requested) {
      var s := set m | m in r.messages && Reached(r, package, requested, m);
      ReachedClosed(r, package, requested, s);
    }
  }
}
