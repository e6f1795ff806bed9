/** Files whose package has a schema have no fault. */
module SchemaFaultless {
  import opened Prelude
  import opened Order
  import opened Wit
  import opened Descriptors
  import opened Collect
  import opened Cycles
  import opened Schema
  import opened SchemaFaults
  import opened Build
  import opened Records
  import opened SchemaSound
  import opened SchemaMeaning

  // ----- files and types -----

  lemma NoFileFault(r: Registry, paths: set<string>, needed: set<FullName>, e: SchemaError)
    requires FilesOk(r, paths, needed)
    ensures !FilesFault(r, paths, needed, e)
  {
    forall p | Concerned(r, paths, needed, p)
      ensures !FileFault(r.files[p], e)
    {
      assert FileOk(r.files[p]);
    }
  }

  lemma TypedHasNoFault(c: Context, f: FieldDescriptor, reason: Reason)
    requires BaseFieldType(c, f).Ok?
    ensures !TypeFault(c, f, reason)
  {
  }

  // ----- variants -----

  lemma CaseHasNoFault(c: Context, f: FieldDescriptor, reason: Reason)
    requires CaseOf(c, f).Some?
    ensures !MemberFault(c, f, reason)
  {
    if !HoldsEmpty(c, f) {
      TypedHasNoFault(c, f, reason);
    }
  }

  lemma VariantHasNoFault(c: Context, o: OwnedOneof, e: SchemaError)
    requires VariantOk(c, o)
    ensures !VariantFault(c, o, e)
  {
    var members := InNumberOrder(Members(c.registry, o));
    assert |members| == |multiset(members)| == |multiset(Members(c.registry, o))|;
    forall k: nat
      ensures !CaseFaultAt(c, members, k, e)
    {
      if k < |members| {
        CaseHasNoFault(c, members[k], e.reason);
      }
    }
  }

  lemma OneofsHaveNoFault(c: Context, oneofs: seq<OwnedOneof>, e: SchemaError)
    requires OneofsNamed(c.names, oneofs) && VariantsOk(c, oneofs)
    ensures !SomeOneofFault(c, oneofs, e) && !SomeVariantFault(c, oneofs, e)
  {
    forall k | 0 <= k < |oneofs|
      ensures !OneofFault(c, oneofs, k, e) && !VariantFault(c, oneofs[k], e)
    {
      VariantHasNoFault(c, oneofs[k], e);
    }
  }

  // ----- records -----

  lemma EntryHasNoFault(c: Context, variants: Variants, f: FieldDescriptor, reason: Reason)
    requires EntryOf(c, variants, f).Some?
    ensures !EntryFault(c, f, reason)
  {
    if !Real(f) {
      TypedHasNoFault(c, f, reason);
    }
  }

  lemma RecordHasNoFault(c: Context, variants: Variants, m: FullName, e: SchemaError)
    requires RecordOk(c, variants, m)
    ensures !RecordFault(c, m, e)
  {
    var entries := LeadingFields(c.registry, m);
    forall k: nat
      ensures !RecordFaultAt(c, m, k, e)
    {
      if k < |entries| {
        EntryHasNoFault(c, variants, entries[k], e.reason);
      }
    }
  }

  lemma EmptyHasNoEntries(r: Registry, m: FullName)
    requires IsEmptyMessage(r, m)
    ensures LeadingFields(r, m) == []
  {
  }

  lemma MessageRecordFaultless(c: Context, messages: seq<FullName>, variants: Variants, m: FullName, e: SchemaError)
    requires m in messages && RecordsOk(c, variants, NonEmpty(c.registry, messages))
    ensures !RecordFault(c, m, e)
  {
    if IsEmptyMessage(c.registry, m) {
      EmptyHasNoEntries(c.registry, m);
    } else {
      NonEmptyMember(c.registry, messages, m);
      RecordHasNoFault(c, variants, m, e);
    }
  }

  // ----- circles -----

  /** Where a message of the schema holds another one with fields, its record depends on that one's. */
  lemma HeldDepends(c: Context, messages: seq<FullName>, oneofs: seq<OwnedOneof>, body: Body, m: FullName, t: FullName)
    requires Sources(c, messages) && Parts(c, messages, oneofs, body) && m in messages
    requires HeldBy(c.registry, m, t) && !IsEmptyMessage(c.registry, t)
    ensures t in messages && Edge(body.records, m, t)
  {
    var j :| 0 <= j < |c.registry.messages[m].fields| && c.registry.messages[m].fields[j].kind == MessageKind
             && c.registry.messages[m].fields[j].message == t;
    var f := c.registry.messages[m].fields[j];
    if Real(f) {
      MemberDepends(c, messages, oneofs, body, m, f);
    } else {
      FieldDepends(c, messages, oneofs, body, m, f);
    }
  }

  lemma FieldDepends(c: Context, messages: seq<FullName>, oneofs: seq<OwnedOneof>, body: Body, m: FullName,
                     f: FieldDescriptor)
    requires Sources(c, messages) && Parts(c, messages, oneofs, body) && m in messages && m in c.registry.messages
    requires f in c.registry.messages[m].fields && !Real(f) && f.kind == MessageKind
    ensures f.message in messages && Edge(body.records, m, f.message)
  {
    var k, j := EntryOfField(c, messages, oneofs, body, m, f);
    FieldTargets(c, ByFullName(body.variants), f, body.records[k].fields[j]);
    assert FieldsTarget(body.records[k].fields, f.message);
  }

  /** The entry of a field that stands for itself. */
  lemma EntryOfField(c: Context, messages: seq<FullName>, oneofs: seq<OwnedOneof>, body: Body, m: FullName,
                     f: FieldDescriptor) returns (k: nat, j: nat)
    requires Sources(c, messages) && Parts(c, messages, oneofs, body) && m in messages && m in c.registry.messages
    requires f in c.registry.messages[m].fields && !Real(f)
    ensures k < |body.records| && body.records[k].fullName == m && j < |body.records[k].fields|
    ensures EntryOf(c, ByFullName(body.variants), f) == Some(body.records[k].fields[j])
  {
    k := RecordFor(c, messages, oneofs, body, m);
    RecordAt(c, messages, oneofs, body, k);
    LeadingFieldsExactly(c.registry, m);
    var entries := LeadingFields(c.registry, m);
    assert f in entries;
    j :| 0 <= j < |entries| && entries[j] == f;
  }

  lemma FieldTargets(c: Context, variants: Variants, f: FieldDescriptor, entry: WitField)
    requires !Real(f) && f.kind == MessageKind && EntryOf(c, variants, f) == Some(entry)
    ensures f.message in c.names && entry.messageTargets == [f.message]
  {
  }

  lemma MemberDepends(c: Context, messages: seq<FullName>, oneofs: seq<OwnedOneof>, body: Body, m: FullName,
                      f: FieldDescriptor)
    requires Sources(c, messages) && Parts(c, messages, oneofs, body) && m in messages && m in c.registry.messages
    requires f in c.registry.messages[m].fields && Real(f) && f.kind == MessageKind
    requires !IsEmptyMessage(c.registry, f.message)
    ensures f.message in messages && Edge(body.records, m, f.message)
  {
    var k := VariantFor(c, messages, oneofs, body, m, f);
    VariantAt(c, messages, oneofs, body, k);
    var members := InNumberOrder(Members(c.registry, oneofs[k]));
    MembersMember(c.registry.messages[m].fields, f.oneof.value, f);
    SortMembers(Members(c.registry, oneofs[k]), Precedes, f);
    var j :| 0 <= j < |members| && members[j] == f;
    assert CaseOf(c, f) == Some(body.variants[k].cases[j]);
    CaseTarget(body.variants[k].cases, j);
    HolderDepends(c, messages, oneofs, body, k, f, f.message);
  }

  /** No message of the schema lies on a circle. */
  lemma NoCircle(c: Context, messages: seq<FullName>, oneofs: seq<OwnedOneof>, body: Body, m: FullName)
    requires Sources(c, messages) && Parts(c, messages, oneofs, body) && Ordered(body.records) && m in messages
    ensures !OnCircle(c.registry, m)
  {
    if walk :| Circle(c.registry, walk, m) {
      var order :| TopologicalOrder(body.records, order);
      WalkDepends(c, messages, oneofs, body, walk, |walk| - 1);
      OrderedHasNoCycle(body.records, order);
      assert ClosedWalk(body.records, walk);
    }
  }

  /** Along a circle every message holds one that has fields. */
  lemma {:induction false} WalkDepends(c: Context, messages: seq<FullName>, oneofs: seq<OwnedOneof>, body: Body,
                                       walk: seq<FullName>, n: nat)
    requires Sources(c, messages) && Parts(c, messages, oneofs, body)
    requires walk != [] && walk[0] in messages && Circle(c.registry, walk, walk[0]) && n < |walk|
    ensures walk[n] in messages && forall i :: 0 <= i < n ==> Edge(body.records, walk[i], walk[i + 1])
  {
    if n > 0 {
      WalkDepends(c, messages, oneofs, body, walk, n - 1);
      assert HeldBy(c.registry, walk[n - 1], walk[n]);
      HoldsSomething(c.registry, walk, n);
      HeldDepends(c, messages, oneofs, body, walk[n - 1], walk[n]);
    }
  }

  lemma HoldsSomething(r: Registry, walk: seq<FullName>, n: nat)
    requires walk != [] && Circle(r, walk, walk[0]) && n < |walk|
    ensures !IsEmptyMessage(r, walk[n])
  {
    if n == |walk| - 1 {
      assert HeldBy(r, walk[0], walk[1]);
    } else {
      assert HeldBy(r, walk[n], walk[n + 1]);
    }
  }

  // ----- whole schemas -----

  lemma ConversionHasNoFault(c: Context, messages: seq<FullName>, oneofs: seq<OwnedOneof>, body: Body, e: SchemaError)
    requires Sources(c, messages) && Parts(c, messages, oneofs, body)
    requires Converts(c, messages, body.records, body.variants)
    ensures !ConversionFault(c, messages, e)
  {
    OneofsHaveNoFault(c, oneofs, e);
    forall m | m in messages
      ensures !MessageFault(c, oneofs, m, e)
    {
      MessageRecordFaultless(c, messages, ByFullName(body.variants), m, e);
      NoCircle(c, messages, oneofs, body, m);
    }
  }

  /** Where a package has a schema, nothing is wrong with it. */
  lemma SchemaHasNoFault(r: Registry, package: FullName, paths: set<string>, schema: WitSchema, e: SchemaError)
    requires Linked(r) && IsSchemaOf(r, package, paths, schema)
    ensures !Fault(r, package, paths, e)
  {
    var needed, c, oneofs := SchemaConverted(r, package, paths, schema);
    NoFileFault(r, paths, needed, e);
    ConversionHasNoFault(c, Listed(needed), oneofs, Body(schema.records, schema.variants), e);
  }

  /** No needed message declares enums or extensions, and each has a name in the package. */
  lemma MessagesSupported(r: Registry, package: FullName, paths: set<string>, schema: WitSchema, m: FullName)
    requires Linked(r) && IsSchemaOf(r, package, paths, schema) && m in Needed(r, package, RequestedIn(r, paths))
    ensures m in r.messages && r.messages[m].enums == [] && !r.messages[m].hasExtensions
    ensures exists id :: IsCalled(package, m, id)
  {
    NamedIsSupported(r, package, Needed(r, package, RequestedIn(r, paths)), m);
  }

  lemma NamedIsSupported(r: Registry, package: FullName, needed: set<FullName>, m: FullName)
    requires Nameable(r, package, needed) && m in needed && m in r.messages
    ensures r.messages[m].enums == [] && !r.messages[m].hasExtensions && exists id :: IsCalled(package, m, id)
  {
    NoObjection(r, package, needed, m, SchemaError(m, UnsupportedExtension));
    if r.messages[m].enums != [] {
      NoObjection(r, package, needed, m, SchemaError(r.messages[m].enums[0], UnsupportedEnum));
    }
    NoObjection(r, package, needed, m, SchemaError(m, UnsupportedIdentifier));
    NameCalled(package, m, MessageName(package, m).value);
  }

  lemma NoObjection(r: Registry, package: FullName, needed: set<FullName>, m: FullName, e: SchemaError)
    requires Nameable(r, package, needed)
    ensures !Objects(r, package, needed, m, e)
  {
    assert !Objection(r, package, needed, e);
  }
}
