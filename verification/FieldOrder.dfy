/** The order in which a message declares its fields does not reach the schema. */
module FieldOrder {
  import opened Prelude
  import opened Order
  import opened Wit
  import opened Descriptors
  import opened Collect
  import opened Schema
  import opened Records
  import opened Generate

  /** The same descriptors, except that each message may declare its fields in another order. */
  ghost predicate Reordered(r: Registry, s: Registry) {
    && r.files == s.files && r.messages.Keys == s.messages.Keys
    && (forall m :: m in r.messages ==> SameButOrder(r.messages[m], s.messages[m]))
  }

  ghost predicate SameButOrder(d: MessageDescriptor, e: MessageDescriptor) {
    e == d.(fields := e.fields) && multiset(d.fields) == multiset(e.fields)
  }

  lemma ReorderedBack(r: Registry, s: Registry)
    requires Reordered(r, s)
    ensures Reordered(s, r)
  {
  }

  lemma SameFields(r: Registry, s: Registry, m: FullName, f: FieldDescriptor)
    requires Reordered(r, s) && m in r.messages && f in r.messages[m].fields
    ensures f in s.messages[m].fields
  {
    assert SameButOrder(r.messages[m], s.messages[m]);
    assert f in multiset(s.messages[m].fields);
  }

  lemma SameEmptiness(r: Registry, s: Registry, m: FullName)
    requires Reordered(r, s)
    ensures IsEmptyMessage(r, m) <==> IsEmptyMessage(s, m)
  {
  }

  // ----- what is needed -----

  lemma ReferenceKept(r: Registry, s: Registry, package: FullName, m: FullName, t: FullName)
    requires Reordered(r, s) && m in r.messages && ReferredBy(r, package, m, t)
    ensures ReferredBy(s, package, m, t)
  {
    var j :| 0 <= j < |r.messages[m].fields| && Refers(r, package, r.messages[m].fields[j])
             && r.messages[m].fields[j].message == t;
    var f := r.messages[m].fields[j];
    SameFields(r, s, m, f);
    assert SameButOrder(r.messages[f.message], s.messages[f.message]);
    var k :| 0 <= k < |s.messages[m].fields| && s.messages[m].fields[k] == f;
  }

  lemma ClosedSetKept(r: Registry, s: Registry, package: FullName, requested: set<FullName>, closed: set<FullName>)
    requires Reordered(r, s) && ClosedSet(r, package, requested, closed)
    ensures ClosedSet(s, package, requested, closed)
  {
    ReorderedBack(r, s);
    forall m
      ensures Collected(r, m) <==> Collected(s, m)
    {
      assert m in r.messages ==> SameButOrder(r.messages[m], s.messages[m]);
    }
    forall m | m in closed
      ensures NestingClosed(s, closed, m)
    {
      assert SameButOrder(r.messages[m], s.messages[m]) && NestingClosed(r, closed, m);
    }
    forall m, t | m in closed && ReferredBy(s, package, m, t)
      ensures t in closed
    {
      ReferenceKept(s, r, package, m, t);
    }
  }

  lemma NeededIncludes(r: Registry, s: Registry, package: FullName, requested: set<FullName>)
    requires Reordered(r, s)
    ensures Needed(r, package, requested) <= Needed(s, package, requested)
  {
    ReorderedBack(r, s);
    forall m | m in Needed(r, package, requested)
      ensures m in Needed(s, package, requested)
    {
      forall closed | ClosedSet(s, package, requested, closed)
        ensures m in closed
      {
        ClosedSetKept(s, r, package, requested, closed);
      }
    }
  }

  lemma NeededKept(r: Registry, s: Registry, package: FullName, requested: set<FullName>)
    requires Reordered(r, s)
    ensures Needed(r, package, requested) == Needed(s, package, requested)
  {
    ReorderedBack(r, s);
    NeededIncludes(r, s, package, requested);
    NeededIncludes(s, r, package, requested);
  }

  lemma NameableKept(r: Registry, s: Registry, package: FullName, needed: set<FullName>)
    requires Reordered(r, s) && Nameable(r, package, needed)
    ensures Nameable(s, package, needed)
  {
    forall e, m
      ensures !Objects(s, package, needed, m, e)
    {
      assert !Objection(r, package, needed, e);
      assert !Objects(r, package, needed, m, e);
      assert m in r.messages ==> SameButOrder(r.messages[m], s.messages[m]);
    }
  }

  lemma FilesKept(r: Registry, s: Registry, paths: set<string>, needed: set<FullName>)
    requires Reordered(r, s) && FilesOk(r, paths, needed)
    ensures FilesOk(s, paths, needed)
  {
  }

  // ----- fields in number order -----

  lemma {:induction false} MembersCounted(fields: seq<FieldDescriptor>, o: OneofDescriptor, f: FieldDescriptor)
    ensures multiset(MembersOf(fields, o))[f] == if f.oneof == Some(o) then multiset(fields)[f] else 0
  {
    if fields != [] {
      var n := |fields| - 1;
      MembersCounted(fields[..n], o, f);
      assert fields == fields[..n] + [fields[n]];
    }
  }

  lemma SameOrder(fields: seq<FieldDescriptor>, members: seq<FieldDescriptor>, others: seq<FieldDescriptor>)
    requires DistinctNumbers(fields) && multiset(members) == multiset(others)
    requires forall f :: f in members ==> f in fields
    ensures InNumberOrder(members) == InNumberOrder(others)
  {
    PrecedesOrders(fields);
    SortForgets(members, others, Precedes);
  }

  lemma LeadingKept(r: Registry, s: Registry, m: FullName)
    requires Linked(r) && Reordered(r, s)
    ensures LeadingFields(r, m) == LeadingFields(s, m)
  {
    if m in r.messages {
      assert SameButOrder(r.messages[m], s.messages[m]) && MessageLinked(r, r.messages[m]);
      SameOrder(r.messages[m].fields, r.messages[m].fields, s.messages[m].fields);
    }
  }

  lemma MembersKept(r: Registry, s: Registry, o: OwnedOneof)
    requires Linked(r) && Reordered(r, s)
    ensures multiset(Members(r, o)) == multiset(Members(s, o))
    ensures InNumberOrder(Members(r, o)) == InNumberOrder(Members(s, o))
  {
    if o.message in r.messages {
      var d, e := r.messages[o.message], s.messages[o.message];
      assert SameButOrder(d, e) && MessageLinked(r, d);
      forall f
        ensures multiset(Members(r, o))[f] == multiset(Members(s, o))[f]
      {
        MembersCounted(d.fields, o.descriptor, f);
        MembersCounted(e.fields, o.descriptor, f);
      }
      forall f | f in Members(r, o)
        ensures f in d.fields
      {
        MembersCounted(d.fields, o.descriptor, f);
        assert multiset(d.fields)[f] > 0;
      }
      SameOrder(d.fields, Members(r, o), Members(s, o));
    }
  }

  // ----- variants and records -----

  lemma {:induction false} RealOneofsKept(r: Registry, s: Registry, messages: seq<FullName>)
    requires Reordered(r, s)
    ensures RealOneofs(r, messages) == RealOneofs(s, messages)
  {
    if messages != [] {
      var last := messages[|messages| - 1];
      assert last in r.messages ==> SameButOrder(r.messages[last], s.messages[last]);
      RealOneofsKept(r, s, messages[..|messages| - 1]);
    }
  }

  lemma {:induction false} NonEmptyKept(r: Registry, s: Registry, messages: seq<FullName>)
    requires Reordered(r, s)
    ensures NonEmpty(r, messages) == NonEmpty(s, messages)
  {
    if messages != [] {
      SameEmptiness(r, s, messages[|messages| - 1]);
      NonEmptyKept(r, s, messages[..|messages| - 1]);
    }
  }

  lemma CaseKept(r: Registry, s: Registry, names: map<FullName, string>, f: FieldDescriptor)
    requires Reordered(r, s)
    ensures CaseOf(Context(r, names), f) == CaseOf(Context(s, names), f)
  {
    SameEmptiness(r, s, f.message);
  }

  lemma CasesKept(r: Registry, s: Registry, names: map<FullName, string>, members: seq<FieldDescriptor>)
    requires Reordered(r, s)
    ensures CasesOk(Context(r, names), members) <==> CasesOk(Context(s, names), members)
    ensures CasesOk(Context(r, names), members) ==>
              Cases(Context(r, names), members) == Cases(Context(s, names), members)
  {
    forall k | 0 <= k < |members|
      ensures CaseOf(Context(r, names), members[k]) == CaseOf(Context(s, names), members[k])
    {
      CaseKept(r, s, names, members[k]);
    }
  }

  lemma VariantKept(r: Registry, s: Registry, names: map<FullName, string>, o: OwnedOneof)
    requires Linked(r) && Reordered(r, s) && VariantOk(Context(r, names), o)
    ensures VariantOk(Context(s, names), o)
    ensures VariantOf(Context(r, names), o) == VariantOf(Context(s, names), o)
  {
    MembersKept(r, s, o);
    assert |Members(r, o)| == |multiset(Members(r, o))| == |Members(s, o)|;
    CasesKept(r, s, names, InNumberOrder(Members(r, o)));
  }

  lemma EntryKept(r: Registry, s: Registry, names: map<FullName, string>, variants: Variants, f: FieldDescriptor)
    requires Reordered(r, s)
    ensures EntryOf(Context(r, names), variants, f) == EntryOf(Context(s, names), variants, f)
  {
    SameEmptiness(r, s, f.message);
  }

  lemma RecordKept(r: Registry, s: Registry, names: map<FullName, string>, variants: Variants, m: FullName)
    requires Linked(r) && Reordered(r, s) && RecordOk(Context(r, names), variants, m)
    ensures RecordOk(Context(s, names), variants, m)
    ensures RecordOf(Context(r, names), variants, m) == RecordOf(Context(s, names), variants, m)
  {
    LeadingKept(r, s, m);
    var leading := LeadingFields(r, m);
    forall k | 0 <= k < |leading|
      ensures EntryOf(Context(r, names), variants, leading[k]) == EntryOf(Context(s, names), variants, leading[k])
    {
      EntryKept(r, s, names, variants, leading[k]);
    }
  }

  lemma EmptyMemberKept(r: Registry, s: Registry, oneofs: seq<OwnedOneof>, m: FullName)
    requires Linked(r) && Reordered(r, s) && IsEmptyMember(r, oneofs, m)
    ensures IsEmptyMember(s, oneofs, m)
  {
    var k, j :| 0 <= k < |oneofs| && 0 <= j < |Members(r, oneofs[k])|
                && HasEmptyTarget(r, Members(r, oneofs[k])[j]) && Members(r, oneofs[k])[j].message == m;
    var f := Members(r, oneofs[k])[j];
    MembersKept(r, s, oneofs[k]);
    assert f in multiset(Members(s, oneofs[k]));
    SameEmptiness(r, s, f.message);
    var i :| 0 <= i < |Members(s, oneofs[k])| && Members(s, oneofs[k])[i] == f;
  }

  lemma VariantsKept(r: Registry, s: Registry, names: map<FullName, string>, oneofs: seq<OwnedOneof>)
    requires Linked(r) && Reordered(r, s) && VariantsOk(Context(r, names), oneofs)
    ensures VariantsOk(Context(s, names), oneofs)
    ensures AllVariants(Context(r, names), oneofs) == AllVariants(Context(s, names), oneofs)
  {
    forall k | 0 <= k < |oneofs|
      ensures VariantOk(Context(s, names), oneofs[k])
      ensures VariantOf(Context(r, names), oneofs[k]) == VariantOf(Context(s, names), oneofs[k])
    {
      VariantKept(r, s, names, oneofs[k]);
    }
  }

  lemma RecordsKept(r: Registry, s: Registry, names: map<FullName, string>, variants: Variants, messages: seq<FullName>)
    requires Linked(r) && Reordered(r, s) && RecordsOk(Context(r, names), variants, messages)
    ensures RecordsOk(Context(s, names), variants, messages)
    ensures AllRecords(Context(r, names), variants, messages) == AllRecords(Context(s, names), variants, messages)
  {
    forall k | 0 <= k < |messages|
      ensures RecordOk(Context(s, names), variants, messages[k])
      ensures RecordOf(Context(r, names), variants, messages[k]) == RecordOf(Context(s, names), variants, messages[k])
    {
      RecordKept(r, s, names, variants, messages[k]);
    }
  }

  lemma ConversionKept(r: Registry, s: Registry, names: map<FullName, string>, messages: seq<FullName>,
                       records: seq<WitRecord>, variants: seq<WitVariant>)
    requires Linked(r) && Reordered(r, s) && Converts(Context(r, names), messages, records, variants)
    ensures Converts(Context(s, names), messages, records, variants)
  {
    var oneofs := SortedOneofs(r, messages);
    RealOneofsKept(r, s, messages);
    NonEmptyKept(r, s, messages);
    VariantsKept(r, s, names, oneofs);
    RecordsKept(r, s, names, ByFullName(variants), NonEmpty(r, messages));
    forall m | m in messages && IsEmptyMessage(s, m)
      ensures IsEmptyMember(s, oneofs, m)
    {
      SameEmptiness(r, s, m);
      EmptyMemberKept(r, s, oneofs, m);
    }
  }

  // ----- schemas and output -----

  lemma SchemaKept(r: Registry, s: Registry, package: FullName, paths: set<string>, schema: WitSchema)
    requires Linked(r) && Reordered(r, s) && IsSchemaOf(r, package, paths, schema)
    ensures IsSchemaOf(s, package, paths, schema)
  {
    assert RequestedIn(r, paths) == RequestedIn(s, paths);
    var needed := Needed(r, package, RequestedIn(r, paths));
    NeededKept(r, s, package, RequestedIn(r, paths));
    FilesKept(r, s, paths, needed);
    NameableKept(r, s, package, needed);
    ConversionKept(r, s, NamesOf(package, needed), Listed(needed), schema.records, schema.variants);
  }

  lemma OwedKept(r: Registry, s: Registry, paths: set<string>, schema: WitSchema)
    requires Linked(r) && Reordered(r, s) && Owed(r, paths, schema)
    ensures Owed(s, paths, schema)
  {
    var package := schema.protoPackage;
    assert PathsOf(r, paths, package) == PathsOf(s, paths, package);
    SchemaKept(r, s, package, PathsOf(r, paths, package), schema);
  }

  lemma OutputKept(r: Registry, s: Registry, paths: set<string>, schemas: seq<WitSchema>)
    requires Linked(r) && Reordered(r, s) && IsOutput(r, paths, schemas)
    ensures IsOutput(s, paths, schemas)
  {
    forall k | 0 <= k < |schemas|
      ensures Owed(s, paths, schemas[k])
    {
      OwedKept(r, s, paths, schemas[k]);
    }
  }

  lemma MessageLinkedKept(r: Registry, s: Registry, m: FullName)
    requires Linked(r) && Reordered(r, s) && m in s.messages
    ensures MessageLinked(s, s.messages[m])
  {
    var d, e := r.messages[m], s.messages[m];
    assert SameButOrder(d, e) && MessageLinked(r, d);
    forall j | 0 <= j < |e.fields|
      ensures FieldLinked(s, e.fields[j]) && (e.fields[j].oneof.Some? ==> e.fields[j].oneof.value in e.oneofs)
    {
      assert e.fields[j] in multiset(d.fields);
      var k :| 0 <= k < |d.fields| && d.fields[k] == e.fields[j];
      assert FieldLinked(r, d.fields[k]);
      var t := d.fields[k].message;
      assert t in r.messages ==> SameButOrder(r.messages[t], s.messages[t]);
    }
    forall j, k | 0 <= j < k < |e.fields|
      ensures e.fields[j].number != e.fields[k].number
    {
      OnceEach(d.fields, e.fields, j, k);
    }
  }

  lemma LinkedKept(r: Registry, s: Registry)
    requires Linked(r) && Reordered(r, s)
    ensures Linked(s)
  {
    forall m | m in s.messages
      ensures MessageLinked(s, s.messages[m]) && s.messages[m].oneofs == r.messages[m].oneofs
    {
      MessageLinkedKept(r, s, m);
      assert SameButOrder(r.messages[m], s.messages[m]);
    }
  }

  /** Rearranging field declarations changes neither whether there is an output nor the output itself. */
  lemma FieldOrderForgotten(r: Registry, s: Registry, paths: set<string>, schemas: seq<WitSchema>)
    requires Linked(r) && Reordered(r, s)
    ensures IsOutput(r, paths, schemas) <==> IsOutput(s, paths, schemas)
  {
    LinkedKept(r, s);
    ReorderedBack(r, s);
    if IsOutput(r, paths, schemas) {
      OutputKept(r, s, paths, schemas);
    }
    if IsOutput(s, paths, schemas) {
      OutputKept(s, r, paths, schemas);
    }
  }
}
