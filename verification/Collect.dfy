/** Which messages a package's schema needs, and the worklist that collects and names them. */
module Collect {
  import opened Prelude
  import opened Wit
  import opened Descriptors
  import opened Identifiers
  import opened Order

  datatype Reason =
    | UnsupportedPackage | UnsupportedService | UnsupportedExtension | UnsupportedEnum | UnsupportedMap
    | UnsupportedMessageReference | UnsupportedIdentifier | UnsupportedNameCollision | UnsupportedEmptyMessage
    | UnsupportedFieldKind | UnsupportedRecursiveMessage | InvalidOneofShape

  datatype SchemaError = SchemaError(element: FullName, reason: Reason)

  // ----- the messages a schema needs -----

  predicate Collected(r: Registry, m: FullName) {
    m in r.messages && !r.messages[m].isMapEntry
  }

  /** A field that pulls its target into the schema: a message field, not a map, within the package. */
  predicate Refers(r: Registry, package: FullName, f: FieldDescriptor) {
    !f.isMap && f.kind == MessageKind && f.message in r.messages && r.messages[f.message].package == package
  }

  predicate ReferredBy(r: Registry, package: FullName, m: FullName, t: FullName)
    requires m in r.messages
  {
    exists j :: 0 <= j < |r.messages[m].fields| && Refers(r, package, r.messages[m].fields[j])
                && r.messages[m].fields[j].message == t
  }

  ghost predicate NestingClosed(r: Registry, s: set<FullName>, m: FullName)
    requires m in r.messages
  {
    forall j :: 0 <= j < |r.messages[m].nested| && Collected(r, r.messages[m].nested[j]) ==>
      r.messages[m].nested[j] in s
  }

  /** `s` holds the requested messages and is closed under nesting and same-package references; map entries aside. */
  ghost predicate ClosedSet(r: Registry, package: FullName, requested: set<FullName>, s: set<FullName>) {
    && s <= r.messages.Keys
    && (forall m :: m in requested && Collected(r, m) ==> m in s)
    && (forall m :: m in s ==> NestingClosed(r, s, m))
    && (forall m, t :: m in s && ReferredBy(r, package, m, t) ==> t in s)
  }

  /** The least such set. */
  ghost function Needed(r: Registry, package: FullName, requested: set<FullName>): set<FullName> {
    set m | m in r.messages && forall s :: ClosedSet(r, package, requested, s) ==> m in s
  }

  lemma NeededIsClosed(r: Registry, package: FullName, requested: set<FullName>)
    requires Linked(r)
    ensures ClosedSet(r, package, requested, Needed(r, package, requested))
  {
  }

  // ----- when they can all be named -----

  /** `strings.TrimPrefix(s, prefix)` */
  function TrimPrefix(s: string, prefix: string): string {
    if prefix <= s then s[|prefix|..] else s
  }

  /** The WIT name of a message: none when it lies outside the package or cannot be normalised. */
  function MessageName(package: FullName, m: FullName): Option<string> {
    var relative := TrimPrefix(m, package + ".");
    if relative == m then None else Normalized(relative)
  }

  /** The error applies to the message `m` among the needed ones. */
  ghost predicate Objects(r: Registry, package: FullName, needed: set<FullName>, m: FullName, e: SchemaError) {
    && m in needed && m in r.messages
    && (e.element == if e.reason == UnsupportedEnum && r.messages[m].enums != [] then r.messages[m].enums[0] else m)
    && match e.reason
       case UnsupportedEnum => r.messages[m].enums != []
       case UnsupportedExtension => r.messages[m].hasExtensions
       case UnsupportedMessageReference => TrimPrefix(m, package + ".") == m
       case UnsupportedIdentifier => MessageName(package, m).None?
       case UnsupportedNameCollision =>
         exists n :: n in needed && n != m && MessageName(package, n) == MessageName(package, m) != None
       case _ => false
  }

  ghost predicate Objection(r: Registry, package: FullName, needed: set<FullName>, e: SchemaError) {
    exists m :: Objects(r, package, needed, m, e)
  }

  ghost predicate Nameable(r: Registry, package: FullName, needed: set<FullName>) {
    forall e :: !Objection(r, package, needed, e)
  }

  /** The listed messages exist, and map entries aside they are to be collected. */
  ghost predicate AllWanted(r: Registry, goal: set<FullName>, messages: seq<FullName>) {
    forall j :: 0 <= j < |messages| ==> messages[j] in r.messages && (Collected(r, messages[j]) ==> messages[j] in goal)
  }

  /** The first `n` of them, map entries aside, are named. */
  ghost predicate AllNamed(r: Registry, names: set<FullName>, messages: seq<FullName>, n: nat) {
    forall j :: 0 <= j < n <= |messages| && Collected(r, messages[j]) ==> messages[j] in names
  }

  lemma NamedOneMore(r: Registry, before: set<FullName>, names: set<FullName>, messages: seq<FullName>, i: nat)
    requires i < |messages| && AllNamed(r, before, messages, i) && before <= names
    requires Collected(r, messages[i]) ==> messages[i] in names
    ensures AllNamed(r, names, messages, i + 1)
  {
  }

  /** Every message of `names` outside `before` has its nested messages in `names`. */
  ghost predicate CompleteSince(r: Registry, names: set<FullName>, before: set<FullName>) {
    forall m :: m in names && m !in before && m in r.messages ==> NestingClosed(r, names, m)
  }

  lemma CompleteOn(r: Registry, first: set<FullName>, second: set<FullName>, third: set<FullName>)
    requires second <= third && CompleteSince(r, second, first) && CompleteSince(r, third, second)
    ensures CompleteSince(r, third, first)
  {
  }

  lemma CompleteWithNested(r: Registry, names: set<FullName>, before: set<FullName>, m: FullName, sorted: seq<FullName>)
    requires m in r.messages && CompleteSince(r, names, before + {m})
    requires forall n :: n in r.messages[m].nested ==> n in sorted
    requires AllNamed(r, names, sorted, |sorted|)
    ensures CompleteSince(r, names, before)
  {
    var nested := r.messages[m].nested;
    forall j | 0 <= j < |nested| && Collected(r, nested[j])
      ensures nested[j] in names
    {
      assert nested[j] in sorted;
    }
    assert NestingClosed(r, names, m);
  }

  /** Sorting the nested messages of a needed message yields messages that are needed, map entries aside. */
  lemma SortedNested(r: Registry, package: FullName, requested: set<FullName>, m: FullName)
    requires Linked(r) && m in Needed(r, package, requested)
    ensures var sorted, goal := Sort(r.messages[m].nested, Below), Needed(r, package, requested);
            && AllWanted(r, goal, sorted)
            && (forall n :: n in r.messages[m].nested ==> n in sorted)
  {
    var nested := r.messages[m].nested;
    var sorted := Sort(nested, Below);
    NeededIsClosed(r, package, requested);
    assert MessageLinked(r, r.messages[m]) && NestingClosed(r, Needed(r, package, requested), m);
    forall n
      ensures n in sorted <==> n in nested
    {
      SortMembers(nested, Below, n);
    }
    forall j | 0 <= j < |sorted|
      ensures sorted[j] in r.messages && (Collected(r, sorted[j]) ==> sorted[j] in Needed(r, package, requested))
    {
      assert sorted[j] in sorted;
      var k :| 0 <= k < |nested| && nested[k] == sorted[j];
    }
  }

  /** Some field among the first `n` pulls in `t`. */
  predicate ReferredWithin(r: Registry, package: FullName, fields: seq<FieldDescriptor>, n: nat, t: FullName)
    requires n <= |fields|
  {
    exists j :: 0 <= j < n && Refers(r, package, fields[j]) && fields[j].message == t
  }

  /** Some message among the first `n` pulls in `t`. */
  predicate ReferredAmong(r: Registry, package: FullName, messages: seq<FullName>, n: nat, t: FullName)
    requires n <= |messages|
  {
    exists j :: 0 <= j < n && messages[j] in r.messages && ReferredBy(r, package, messages[j], t)
  }

  lemma ReferredStep(r: Registry, package: FullName, messages: seq<FullName>, i: nat)
    requires i < |messages|
    ensures forall t :: ReferredAmong(r, package, messages, i + 1, t)
              <==> ReferredAmong(r, package, messages, i, t)
                   || (messages[i] in r.messages && ReferredBy(r, package, messages[i], t))
  {
  }

  // ----- the collector -----

  class Collector {
    const registry: Registry
    const package: FullName
    /** The messages to be collected in the end. */
    ghost const goal: set<FullName>
    var definitions: seq<FullName>
    var namesByIdentifier: map<string, FullName>
    var namesByFullName: map<FullName, string>

    ghost predicate Named(m: FullName)
      reads this
    {
      && m in goal && m in namesByFullName && Collected(registry, m)
      && registry.messages[m].enums == [] && !registry.messages[m].hasExtensions
      && MessageName(package, m) == Some(namesByFullName[m])
      && namesByFullName[m] in namesByIdentifier && namesByIdentifier[namesByFullName[m]] == m
    }

    ghost predicate Valid()
      reads this
    {
      && (forall m :: m in namesByFullName ==> Named(m))
      && (forall id :: id in namesByIdentifier ==>
            namesByIdentifier[id] in namesByFullName && namesByFullName[namesByIdentifier[id]] == id)
      && (forall m :: m in definitions <==> m in namesByFullName)
      && (forall j, k :: 0 <= j < k < |definitions| ==> definitions[j] != definitions[k])
    }

    constructor (registry: Registry, package: FullName, ghost goal: set<FullName>)
      ensures Valid() && this.registry == registry && this.package == package && this.goal == goal
      ensures definitions == [] && namesByFullName == map[]
    {
      this.registry, this.package, this.goal := registry, package, goal;
      definitions, namesByIdentifier, namesByFullName := [], map[], map[];
    }

    ghost predicate IsObjection(error: Option<SchemaError>) {
      error.Some? && Objection(registry, package, goal, error.value)
    }

    function Objected(ghost message: FullName, error: SchemaError): (r: Option<SchemaError>)
      requires Objects(registry, package, goal, message, error)
      ensures IsObjection(r)
    {
      Some(error)
    }

    /** Checks one message and names it. */
    method Define(message: FullName) returns (error: Option<SchemaError>)
      requires Valid() && Collected(registry, message) && message in goal && message !in namesByFullName
      modifies this
      ensures error.None? || IsObjection(error)
      ensures error.None? ==> Valid() && namesByFullName.Keys == old(namesByFullName.Keys) + {message}
    {
      var descriptor := registry.messages[message];
      if descriptor.enums != [] {
        return Objected(message, SchemaError(descriptor.enums[0], UnsupportedEnum));
      }
      if descriptor.hasExtensions {
        return Objected(message, SchemaError(message, UnsupportedExtension));
      }
      var relativeName := TrimPrefix(message, package + ".");
      if relativeName == message {
        return Objected(message, SchemaError(message, UnsupportedMessageReference));
      }
      var name := NormalizeIdentifier(relativeName);
      if name.None? {
        return Objected(message, SchemaError(message, UnsupportedIdentifier));
      }
      if name.value in namesByIdentifier {
        assert Named(namesByIdentifier[name.value]);
        return Objected(message, SchemaError(message, UnsupportedNameCollision));
      }
      Enrol(message, name.value);
      error := None;
    }

    /** Enters a message under a name no other message has. */
    method Enrol(message: FullName, name: string)
      requires Valid() && Collected(registry, message) && message in goal && message !in namesByFullName
      requires registry.messages[message].enums == [] && !registry.messages[message].hasExtensions
      requires MessageName(package, message) == Some(name) && name !in namesByIdentifier
      modifies this
      ensures Valid() && namesByFullName == old(namesByFullName)[message := name]
    {
      namesByIdentifier := namesByIdentifier[name := message];
      namesByFullName := namesByFullName[message := name];
      definitions := definitions + [message];
      forall m | m in namesByFullName
        ensures Named(m)
      {
        if m != message {
          assert old(Named(m));
        }
      }
    }

    /** Names the message and everything nested in it; a message already named and a map entry are passed over. */
    method CollectMessageDefinitions(message: FullName, ghost requested: set<FullName>)
        returns (error: Option<SchemaError>)
      requires Valid() && Linked(registry) && goal == Needed(registry, package, requested)
      requires message in registry.messages && (Collected(registry, message) ==> message in goal)
      modifies this
      ensures error.None? || IsObjection(error)
      ensures error.None? ==> Valid() && old(namesByFullName.Keys) <= namesByFullName.Keys
      ensures error.None? && Collected(registry, message) ==> message in namesByFullName
      ensures error.None? ==> CompleteSince(registry, namesByFullName.Keys, old(namesByFullName.Keys))
      decreases registry.messages.Keys - namesByFullName.Keys, 1
    {
      if registry.messages[message].isMapEntry {
        return None;
      }
      if message in namesByFullName {
        return None;
      }
      ghost var before := namesByFullName.Keys;
      error := Define(message);
      if error.Some? {
        return;
      }
      var nestedMessages := Sort(registry.messages[message].nested, Below);
      SortedNested(registry, package, requested, message);
      error := CollectAll(nestedMessages, requested);
      if error.None? {
        CompleteWithNested(registry, namesByFullName.Keys, before, message, nestedMessages);
      }
    }

    /** Collects the listed messages one after the other, up to the first error. */
    method CollectAll(messages: seq<FullName>, ghost requested: set<FullName>) returns (error: Option<SchemaError>)
      requires Valid() && Linked(registry) && goal == Needed(registry, package, requested)
      requires AllWanted(registry, goal, messages)
      modifies this
      ensures error.None? || IsObjection(error)
      ensures error.None? ==> Valid() && old(namesByFullName.Keys) <= namesByFullName.Keys
      ensures error.None? ==> AllNamed(registry, namesByFullName.Keys, messages, |messages|)
      ensures error.None? ==> CompleteSince(registry, namesByFullName.Keys, old(namesByFullName.Keys))
      decreases registry.messages.Keys - namesByFullName.Keys, 2
    {
      ghost var start := namesByFullName.Keys;
      for i := 0 to |messages|
        invariant Valid() && start <= namesByFullName.Keys
        invariant AllNamed(registry, namesByFullName.Keys, messages, i)
        invariant CompleteSince(registry, namesByFullName.Keys, start)
      {
        ghost var before := namesByFullName.Keys;
        assert registry.messages.Keys - before <= registry.messages.Keys - start;
        error := CollectMessageDefinitions(messages[i], requested);
        if error.Some? {
          return;
        }
        CompleteOn(registry, start, before, namesByFullName.Keys);
        NamedOneMore(registry, before, namesByFullName.Keys, messages, i);
      }
      error := None;
    }

    /** The same-package targets of the named messages that are not named yet, each once. */
    method PendingReferences() returns (pending: seq<FullName>)
      requires Valid()
      ensures forall t :: t in pending <==>
                t !in namesByFullName && exists m :: m in namesByFullName && ReferredBy(registry, package, m, t)
    {
      pending := [];
      for i := 0 to |definitions|
        invariant forall t :: t in pending <==>
                    t !in namesByFullName && ReferredAmong(registry, package, definitions, i, t)
      {
        assert definitions[i] in definitions && Named(definitions[i]);
        pending := AddReferences(pending, definitions[i]);
        ReferredStep(registry, package, definitions, i);
      }
      forall t
        ensures ReferredAmong(registry, package, definitions, |definitions|, t)
           <==> exists m :: m in namesByFullName && ReferredBy(registry, package, m, t)
      {
        if m :| m in namesByFullName && ReferredBy(registry, package, m, t) {
          assert Named(m) && m in definitions;
        }
      }
    }

    /** Adds the unnamed same-package targets of one message. */
    method AddReferences(found: seq<FullName>, m: FullName) returns (pending: seq<FullName>)
      requires m in registry.messages
      ensures forall t :: t in pending <==>
                t in found || (t !in namesByFullName && ReferredBy(registry, package, m, t))
    {
      pending := found;
      var fields := registry.messages[m].fields;
      for index := 0 to |fields|
        invariant forall t :: t in pending <==>
          t in found || (t !in namesByFullName && ReferredWithin(registry, package, fields, index, t))
      {
        var field := fields[index];
        if !field.isMap && field.kind == MessageKind && field.message in registry.messages
           && registry.messages[field.message].package == package
        {
          if field.message !in namesByFullName && field.message !in pending {
            pending := pending + [field.message];
          }
        }
        forall t
          ensures ReferredWithin(registry, package, fields, index + 1, t)
             <==> ReferredWithin(registry, package, fields, index, t)
                  || (Refers(registry, package, field) && field.message == t)
        {
        }
      }
    }

    /** Repeats until every same-package reference is named. */
    method CollectSamePackageReferences(ghost requested: set<FullName>) returns (error: Option<SchemaError>)
      requires Valid() && Linked(registry) && goal == Needed(registry, package, requested)
      requires CompleteSince(registry, namesByFullName.Keys, {})
      requires forall m :: m in requested && Collected(registry, m) ==> m in namesByFullName
      modifies this
      ensures error.None? || IsObjection(error)
      ensures error.None? ==> Valid() && namesByFullName.Keys == goal
    {
      ghost var start := namesByFullName.Keys;
      var pending := PendingReferences();
      while pending != []
        invariant Valid() && start <= namesByFullName.Keys && CompleteSince(registry, namesByFullName.Keys, {})
        invariant forall t :: t in pending <==>
          t !in namesByFullName && exists m :: m in namesByFullName && ReferredBy(registry, package, m, t)
        decreases registry.messages.Keys - namesByFullName.Keys
      {
        ghost var before := namesByFullName.Keys;
        var fullNames := Sort(pending, Below);
        PendingWanted(requested, pending, fullNames);
        error := CollectAll(fullNames, requested);
        if error.Some? {
          return;
        }
        CompleteOn(registry, {}, before, namesByFullName.Keys);
        assert fullNames[0] in namesByFullName && fullNames[0] !in before && Named(fullNames[0]);
        pending := PendingReferences();
      }
      error := None;
      ReachedGoal(requested);
    }

    lemma PendingWanted(requested: set<FullName>, pending: seq<FullName>, sorted: seq<FullName>)
      requires Valid() && Linked(registry) && goal == Needed(registry, package, requested)
      requires pending != [] && sorted == Sort(pending, Below)
      requires forall t :: t in pending ==>
                 t !in namesByFullName && exists m :: m in namesByFullName && ReferredBy(registry, package, m, t)
      ensures |sorted| > 0 && AllWanted(registry, goal, sorted)
      ensures forall j :: 0 <= j < |sorted| ==> Collected(registry, sorted[j]) && sorted[j] !in namesByFullName
    {
      NeededIsClosed(registry, package, requested);
      assert |sorted| == |multiset(sorted)| == |multiset(pending)| == |pending|;
      forall j | 0 <= j < |sorted|
        ensures Collected(registry, sorted[j]) && sorted[j] in goal && sorted[j] !in namesByFullName
      {
        var t := sorted[j];
        SortMembers(pending, Below, t);
        assert t in pending;
        var m :| m in namesByFullName && ReferredBy(registry, package, m, t);
        assert Named(m);
        var k :| 0 <= k < |registry.messages[m].fields| && Refers(registry, package, registry.messages[m].fields[k])
                 && registry.messages[m].fields[k].message == t;
        assert MessageLinked(registry, registry.messages[m]) && FieldLinked(registry, registry.messages[m].fields[k]);
      }
    }

    lemma ReachedGoal(requested: set<FullName>)
      requires Valid() && goal == Needed(registry, package, requested)
      requires CompleteSince(registry, namesByFullName.Keys, {})
      requires forall m :: m in requested && Collected(registry, m) ==> m in namesByFullName
      requires forall t :: t !in namesByFullName ==>
                 !exists m :: m in namesByFullName && ReferredBy(registry, package, m, t)
      ensures namesByFullName.Keys == goal
    {
    }

    lemma Complete()
      requires Valid() && namesByFullName.Keys == goal
      ensures Nameable(registry, package, goal)
      ensures Collects(Collection(definitions, namesByIdentifier, namesByFullName), package, goal)
    {
      assert forall m :: m in goal ==> Named(m);
      forall m, e
        ensures !Objects(registry, package, goal, m, e)
      {
        if m in goal {
          assert Named(m);
        }
      }
    }
  }

  // ----- the whole collection -----

  function SetOf(messages: seq<string>): set<string> { set m | m in messages }

  datatype Collection = Collection(
    definitions: seq<FullName>,
    namesByIdentifier: map<string, FullName>,
    namesByFullName: map<FullName, string>)

  ghost function NamesOf(package: FullName, needed: set<FullName>): map<FullName, string> {
    map m | m in needed :: MessageName(package, m).GetOr("")
  }

  /** The definitions are the needed messages, each once and under its name. */
  ghost predicate Collects(collection: Collection, package: FullName, needed: set<FullName>) {
    && collection.namesByFullName == NamesOf(package, needed)
    && (forall m :: m in collection.definitions <==> m in needed)
    && (forall j, k :: 0 <= j < k < |collection.definitions| ==> collection.definitions[j] != collection.definitions[k])
    && collection.namesByIdentifier.Keys == collection.namesByFullName.Values
  }

  /** Collects the requested messages and all they need. It fails exactly when some needed message cannot be named, and
      then for a reason that applies. */
  method CollectPackage(registry: Registry, package: FullName, messages: seq<FullName>)
      returns (collected: Result<Collection, SchemaError>)
    requires Linked(registry) && forall j :: 0 <= j < |messages| ==> messages[j] in registry.messages
    ensures var needed := Needed(registry, package, SetOf(messages));
            && (collected.Ok? <==> Nameable(registry, package, needed))
            && (collected.Ok? ==> Collects(collected.value, package, needed))
            && (collected.Err? ==> Objection(registry, package, needed, collected.error))
  {
    ghost var requested := SetOf(messages);
    NeededIsClosed(registry, package, requested);
    var collector := new Collector(registry, package, Needed(registry, package, requested));
    var sorted := Sort(messages, Below);
    forall m
      ensures m in sorted <==> m in messages
    {
      SortMembers(messages, Below, m);
    }
    forall j | 0 <= j < |sorted|
      ensures sorted[j] in registry.messages && (Collected(registry, sorted[j]) ==> sorted[j] in collector.goal)
    {
      assert sorted[j] in sorted;
    }
    var error := collector.CollectAll(sorted, requested);
    if error.Some? {
      return Err(error.value);
    }
    assert forall m :: m in requested && Collected(registry, m) ==> m in sorted && m in collector.namesByFullName;
    error := collector.CollectSamePackageReferences(requested);
    if error.Some? {
      return Err(error.value);
    }
    collector.Complete();
    return Ok(Collection(collector.definitions, collector.namesByIdentifier, collector.namesByFullName));
  }
}
