/** What the records and variants of every schema say of the messages they come from. */
module SchemaMeaning {
  import opened Prelude
  import opened Identifiers
  import opened Order
  import opened Wit
  import opened Descriptors
  import opened Collect
  import opened Schema
  import opened Build
  import opened Package
  import opened Records
  import opened SchemaSound

  // ----- types -----

  predicate IsFloat(k: Kind) { k == FloatKind || k == DoubleKind }

  predicate IsSigned(k: Kind) {
    k == Int32Kind || k == Sint32Kind || k == Sfixed32Kind || k == Int64Kind || k == Sint64Kind || k == Sfixed64Kind
  }

  predicate IsUnsigned(k: Kind) {
    k == Uint32Kind || k == Fixed32Kind || k == Uint64Kind || k == Fixed64Kind
  }

  predicate IsWide(k: Kind) {
    || k == DoubleKind || k == Int64Kind || k == Sint64Kind || k == Sfixed64Kind || k == Uint64Kind
    || k == Fixed64Kind
  }

  /** The built-in type for the values of a kind: numbers keep their class, their signedness and their width. */
  predicate IsBuiltIn(k: Kind, text: string) {
    || (k == BoolKind && text == "bool") || (k == StringKind && text == "string")
    || (k == BytesKind && text == "list<u8>")
    || (IsFloat(k) && text == "f" + Width(k)) || (IsSigned(k) && text == "s" + Width(k))
    || (IsUnsigned(k) && text == "u" + Width(k))
  }

  function Width(k: Kind): string { if IsWide(k) then "64" else "32" }

  /** The message lies in the package, and its name there, nesting included, is written `id`. */
  ghost predicate IsCalled(package: FullName, m: FullName, id: string) {
    exists name :: m == package + "." + name && Normalized(name) == Some(id)
  }

  /** The type of one value of the field: a built-in type, or the name of a message that has fields. */
  ghost predicate IsOne(r: Registry, package: FullName, f: FieldDescriptor, t: WitType) {
    if f.kind == MessageKind then
      t.Named? && IsCalled(package, f.message, t.identifier)
      && f.message in r.messages && r.messages[f.message].fields != [] && !r.messages[f.message].isMapEntry
    else t.Scalar? && IsBuiltIn(f.kind, t.text)
  }

  /** A list exactly for a repeated field; an option exactly for a field that may be absent: one with presence that is
      neither repeated nor required. */
  ghost predicate IsFieldType(r: Registry, package: FullName, f: FieldDescriptor, t: WitType) {
    match f.cardinality
    case Repeated => t.ListOf? && IsOne(r, package, f, t.element)
    case Required => IsOne(r, package, f, t)
    case Optional => if f.hasPresence then t.OptionOf? && IsOne(r, package, f, t.element) else IsOne(r, package, f, t)
  }

  /** The entry of a field that stands for itself. */
  ghost predicate FieldEntry(r: Registry, package: FullName, f: FieldDescriptor, entry: WitField) {
    !f.isMap && Normalized(f.name) == Some(entry.name) && IsFieldType(r, package, f, entry.typeId)
  }

  /** The entry of a oneof: an option of its variant. */
  ghost predicate OneofEntry(variants: seq<WitVariant>, o: OneofDescriptor, entry: WitField) {
    && Normalized(o.name) == Some(entry.name)
    && exists k :: 0 <= k < |variants| && variants[k].fullName == o.fullName
                   && entry.typeId == OptionOf(Named(variants[k].name))
  }

  /** The case of a oneof member: a bare one exactly for a message without fields. */
  ghost predicate MemberCase(r: Registry, package: FullName, f: FieldDescriptor, c: WitCase) {
    && Normalized(f.name) == Some(c.name) && f.cardinality != Repeated
    && if f.kind == MessageKind && f.message in r.messages && r.messages[f.message].fields == [] then c.typeId.None?
       else c.typeId.Some? && IsOne(r, package, f, c.typeId.value)
  }

  // ----- names -----

  lemma PrefixTrimmed(package: FullName, m: FullName)
    requires MessageName(package, m).Some?
    ensures m == package + "." + TrimPrefix(m, package + ".")
  {
    assert package + "." <= m;
    assert m == (package + ".") + m[|package + "."|..];
  }

  lemma NameCalled(package: FullName, m: FullName, id: string)
    requires MessageName(package, m) == Some(id)
    ensures IsCalled(package, m, id)
  {
    PrefixTrimmed(package, m);
  }

  /** Names are those of the messages in the package. */
  ghost predicate Called(c: Context, package: FullName) {
    forall m :: m in c.names ==> MessageName(package, m) == Some(c.names[m])
  }

  // ----- types of fields and cases -----

  lemma OneTarget(c: Context, package: FullName, f: FieldDescriptor)
    requires Called(c, package) && (forall m :: m in c.names ==> Collected(c.registry, m))
    requires BaseFieldType(c, f).Ok? && !HasEmptyTarget(c.registry, f)
    ensures IsOne(c.registry, package, f, BaseFieldType(c, f).value.typeId)
  {
    if f.kind == MessageKind {
      NameCalled(package, f.message, c.names[f.message]);
    }
  }

  lemma OrdinaryEntry(c: Context, package: FullName, variants: Variants, f: FieldDescriptor)
    requires Called(c, package) && (forall m :: m in c.names ==> Collected(c.registry, m))
    requires !Real(f) && EntryOf(c, variants, f).Some?
    ensures FieldEntry(c.registry, package, f, EntryOf(c, variants, f).value)
  {
    OneTarget(c, package, f);
  }

  lemma CaseMeans(c: Context, package: FullName, f: FieldDescriptor)
    requires Called(c, package) && (forall m :: m in c.names ==> Collected(c.registry, m))
    requires CaseOf(c, f).Some?
    ensures MemberCase(c.registry, package, f, CaseOf(c, f).value)
  {
    if !HasEmptyTarget(c.registry, f) {
      OneTarget(c, package, f);
    }
  }

  // ----- whole schemas -----

  /** What a schema is converted from. */
  ghost predicate Converted(r: Registry, package: FullName, needed: set<FullName>, c: Context, oneofs: seq<OwnedOneof>,
                            body: Body)
  {
    && c == Context(r, NamesOf(package, needed)) && Sources(c, Listed(needed)) && Parts(c, Listed(needed), oneofs, body)
    && Called(c, package) && (forall m :: m in needed ==> Collected(r, m))
  }

  lemma SchemaConverted(r: Registry, package: FullName, paths: set<string>, schema: WitSchema)
      returns (needed: set<FullName>, c: Context, oneofs: seq<OwnedOneof>)
    requires Linked(r) && IsSchemaOf(r, package, paths, schema)
    ensures needed == Needed(r, package, RequestedIn(r, paths))
    ensures Converted(r, package, needed, c, oneofs, Body(schema.records, schema.variants))
  {
    needed := Needed(r, package, RequestedIn(r, paths));
    c, oneofs := Context(r, NamesOf(package, needed)), SortedOneofs(r, Listed(needed));
    NeededNamed(r, package, needed);
    forall m | m in needed
      ensures MessageName(package, m) == Some(c.names[m])
    {
      NameOf(r, package, needed, m);
    }
    NeededCollected(r, package, RequestedIn(r, paths));
  }

  /** No map entry is needed. */
  lemma NeededCollected(r: Registry, package: FullName, requested: set<FullName>)
    requires Linked(r)
    ensures forall m :: m in Needed(r, package, requested) ==> Collected(r, m)
  {
    var needed := Needed(r, package, requested);
    var collected := set m | m in needed && Collected(r, m);
    NeededIsClosed(r, package, requested);
    forall m, t | m in collected && ReferredBy(r, package, m, t)
      ensures t in collected
    {
      var j :| 0 <= j < |r.messages[m].fields| && Refers(r, package, r.messages[m].fields[j])
               && r.messages[m].fields[j].message == t;
      assert MessageLinked(r, r.messages[m]) && FieldLinked(r, r.messages[m].fields[j]);
    }
    assert forall m :: m in collected ==> NestingClosed(r, collected, m) by {
      assert forall m :: m in collected ==> NestingClosed(r, needed, m);
    }
    assert ClosedSet(r, package, requested, collected);
  }

  /** The record says what its message says: it bears the name of the message in the package, and its entries stand, in
      order, for the fields and oneofs of the message. */
  ghost predicate RecordMeans(r: Registry, package: FullName, schema: WitSchema, record: WitRecord) {
    var m := record.fullName;
    && m in r.messages && IsCalled(package, m, record.name)
    && var fields := LeadingFields(r, m);
       |record.fields| == |fields|
       && forall j :: 0 <= j < |fields| ==>
            if Real(fields[j]) then OneofEntry(schema.variants, fields[j].oneof.value, record.fields[j])
            else FieldEntry(r, package, fields[j], record.fields[j])
  }

  lemma EntryMeans(c: Context, package: FullName, variants: seq<WitVariant>, f: FieldDescriptor, entry: WitField)
    requires Called(c, package) && forall m :: m in c.names ==> Collected(c.registry, m)
    requires EntryOf(c, ByFullName(variants), f) == Some(entry)
    ensures if Real(f) then OneofEntry(variants, f.oneof.value, entry) else FieldEntry(c.registry, package, f, entry)
  {
    if Real(f) {
      var k := IndexOf(variants, f.oneof.value.fullName);
    } else {
      OrdinaryEntry(c, package, ByFullName(variants), f);
    }
  }

  /** Every record of every schema means its message. */
  lemma RecordsMean(r: Registry, package: FullName, paths: set<string>, schema: WitSchema, i: nat)
    requires Linked(r) && IsSchemaOf(r, package, paths, schema) && i < |schema.records|
    ensures RecordMeans(r, package, schema, schema.records[i])
  {
    var needed, c, oneofs := SchemaConverted(r, package, paths, schema);
    var body := Body(schema.records, schema.variants);
    RecordAt(c, Listed(needed), oneofs, body, i);
    var m := schema.records[i].fullName;
    NameCalled(package, m, schema.records[i].name);
    var fields := LeadingFields(r, m);
    forall j | 0 <= j < |fields|
      ensures if Real(fields[j]) then OneofEntry(schema.variants, fields[j].oneof.value, schema.records[i].fields[j])
              else FieldEntry(r, package, fields[j], schema.records[i].fields[j])
    {
      EntryMeans(c, package, schema.variants, fields[j], schema.records[i].fields[j]);
    }
  }

  /** A message has a record exactly when it is needed and has fields. */
  lemma RecordedExactly(r: Registry, package: FullName, paths: set<string>, schema: WitSchema, m: FullName)
    requires Linked(r) && IsSchemaOf(r, package, paths, schema)
    ensures m in Needed(r, package, RequestedIn(r, paths)) && r.messages[m].fields != [] <==>
              exists i :: 0 <= i < |schema.records| && schema.records[i].fullName == m
  {
    var needed, c, oneofs := SchemaConverted(r, package, paths, schema);
    var body := Body(schema.records, schema.variants);
    ListedMember(needed, m);
    if m in needed && r.messages[m].fields != [] {
      var k := RecordFor(c, Listed(needed), oneofs, body, m);
    }
    if i :| 0 <= i < |schema.records| && schema.records[i].fullName == m {
      RecordAt(c, Listed(needed), oneofs, body, i);
    }
  }

  /** The records stand in the order of their messages' full names, each once. */
  lemma RecordsOrdered(r: Registry, package: FullName, paths: set<string>, schema: WitSchema, i: nat, j: nat)
    requires Linked(r) && IsSchemaOf(r, package, paths, schema) && i < j < |schema.records|
    ensures Below(schema.records[i].fullName, schema.records[j].fullName)
    ensures schema.records[i].fullName != schema.records[j].fullName
  {
    var needed, c, oneofs := SchemaConverted(r, package, paths, schema);
    var body := Body(schema.records, schema.variants);
    RecordAt(c, Listed(needed), oneofs, body, i);
    RecordAt(c, Listed(needed), oneofs, body, j);
    ListedSorted(needed);
    NonEmptyDistinct(r, Listed(needed));
    NonEmptySorted(r, Listed(needed));
  }

  lemma {:induction false} NonEmptySorted(r: Registry, messages: seq<FullName>)
    requires SortedBy(messages, Below)
    ensures SortedBy(NonEmpty(r, messages), Below)
  {
    if messages != [] {
      var n := |messages| - 1;
      NonEmptySorted(r, messages[..n]);
      forall j | 0 <= j < |NonEmpty(r, messages[..n])|
        ensures Below(NonEmpty(r, messages[..n])[j], messages[n])
      {
        NonEmptyMember(r, messages[..n], NonEmpty(r, messages[..n])[j]);
      }
    }
  }

  // ----- variants -----

  /** The fields are the members of the oneof, in increasing order of their numbers. */
  ghost predicate IsMembers(r: Registry, m: FullName, o: OneofDescriptor, members: seq<FieldDescriptor>) {
    && m in r.messages && Increasing(members)
    && forall f :: f in members <==> f in r.messages[m].fields && f.oneof == Some(o)
  }

  /** The variant says what a oneof of the message `m` says: it is named after both, and its cases stand for the members
      of the oneof in the order of their numbers. */
  ghost predicate VariantMeans(r: Registry, package: FullName, m: FullName, o: OneofDescriptor, variant: WitVariant) {
    && m in r.messages && o in r.messages[m].oneofs && !o.synthetic && variant.fullName == o.fullName
    && (exists name :: m == package + "." + name && Normalized(name + "." + o.name) == Some(variant.name))
    && exists members :: IsMembers(r, m, o, members) && members != [] && CasesStand(r, package, members, variant.cases)
  }

  /** The cases stand for the fields. */
  ghost predicate CasesStand(r: Registry, package: FullName, members: seq<FieldDescriptor>, cases: seq<WitCase>) {
    |cases| == |members| && forall j :: 0 <= j < |members| ==> MemberCase(r, package, members[j], cases[j])
  }

  lemma {:induction false} MembersDistinct(fields: seq<FieldDescriptor>, o: OneofDescriptor)
    requires DistinctNumbers(fields)
    ensures DistinctNumbers(MembersOf(fields, o))
  {
    if fields != [] {
      var n := |fields| - 1;
      MembersDistinct(fields[..n], o);
      forall j | 0 <= j < |MembersOf(fields[..n], o)|
        ensures MembersOf(fields[..n], o)[j].number != fields[n].number
      {
        MembersMember(fields[..n], o, MembersOf(fields[..n], o)[j]);
      }
    }
  }

  lemma OrderedMembers(r: Registry, m: FullName, o: OneofDescriptor)
    requires Linked(r) && m in r.messages
    ensures IsMembers(r, m, o, InNumberOrder(Members(r, OwnedOneof(m, o))))
  {
    var fields := r.messages[m].fields;
    assert MessageLinked(r, r.messages[m]);
    MembersDistinct(fields, o);
    InNumberOrderIncreases(MembersOf(fields, o));
    forall f
      ensures f in InNumberOrder(MembersOf(fields, o)) <==> f in fields && f.oneof == Some(o)
    {
      SortMembers(MembersOf(fields, o), Precedes, f);
      MembersMember(fields, o, f);
    }
  }

  lemma VariantNamed(r: Registry, package: FullName, needed: set<FullName>, c: Context, oneofs: seq<OwnedOneof>,
                     body: Body, i: nat)
    requires Converted(r, package, needed, c, oneofs, body) && i < |body.variants| && i < |oneofs|
    requires OneofName(c.names, oneofs[i]) == Some(body.variants[i].name) && oneofs[i].message in needed
    ensures exists name :: oneofs[i].message == package + "." + name
                           && Normalized(name + "." + oneofs[i].descriptor.name) == Some(body.variants[i].name)
  {
    var m := oneofs[i].message;
    var name := TrimPrefix(m, package + ".");
    PrefixTrimmed(package, m);
    Compositional(name, oneofs[i].descriptor.name);
  }

  lemma CasesMean(c: Context, package: FullName, o: OwnedOneof)
    requires Linked(c.registry) && Called(c, package) && forall m :: m in c.names ==> Collected(c.registry, m)
    requires VariantOk(c, o) && o.message in c.registry.messages
    ensures exists members :: IsMembers(c.registry, o.message, o.descriptor, members) && members != []
              && CasesStand(c.registry, package, members, VariantOf(c, o).cases)
  {
    var members, cases := InNumberOrder(Members(c.registry, o)), VariantOf(c, o).cases;
    OrderedMembers(c.registry, o.message, o.descriptor);
    assert |members| == |multiset(members)| == |multiset(Members(c.registry, o))|;
    forall j | 0 <= j < |members|
      ensures MemberCase(c.registry, package, members[j], cases[j])
    {
      assert CaseOf(c, members[j]) == Some(cases[j]);
      CaseMeans(c, package, members[j]);
    }
  }

  /** Every variant of every schema means a oneof of a needed message. */
  lemma VariantsMean(r: Registry, package: FullName, paths: set<string>, schema: WitSchema, i: nat)
    returns (m: FullName, o: OneofDescriptor)
    requires Linked(r) && IsSchemaOf(r, package, paths, schema) && i < |schema.variants|
    ensures m in Needed(r, package, RequestedIn(r, paths)) && VariantMeans(r, package, m, o, schema.variants[i])
  {
    var needed, c, oneofs := SchemaConverted(r, package, paths, schema);
    var body := Body(schema.records, schema.variants);
    m, o := VariantSource(r, package, needed, c, oneofs, body, i);
    VariantNamed(r, package, needed, c, oneofs, body, i);
    CasesMean(c, package, oneofs[i]);
  }

  lemma VariantSource(r: Registry, package: FullName, needed: set<FullName>, c: Context, oneofs: seq<OwnedOneof>,
                      body: Body, i: nat)
    returns (m: FullName, o: OneofDescriptor)
    requires Converted(r, package, needed, c, oneofs, body) && i < |body.variants|
    ensures i < |oneofs| && oneofs[i] == OwnedOneof(m, o) && m in needed && m in r.messages
    ensures VariantOk(c, oneofs[i]) && body.variants[i] == VariantOf(c, oneofs[i])
    ensures OneofName(c.names, oneofs[i]) == Some(body.variants[i].name)
    ensures o in r.messages[m].oneofs && !o.synthetic
  {
    VariantAt(c, Listed(needed), oneofs, body, i);
    m, o := oneofs[i].message, oneofs[i].descriptor;
    ListedMember(needed, m);
  }

  /** Every real oneof of a needed message has a variant. */
  lemma VariantsComplete(r: Registry, package: FullName, paths: set<string>, schema: WitSchema, m: FullName,
                         o: OneofDescriptor)
    requires Linked(r) && IsSchemaOf(r, package, paths, schema)
    requires m in Needed(r, package, RequestedIn(r, paths)) && o in r.messages[m].oneofs && !o.synthetic
    ensures exists i :: 0 <= i < |schema.variants| && schema.variants[i].fullName == o.fullName
  {
    var needed, c, oneofs := SchemaConverted(r, package, paths, schema);
    ListedMember(needed, m);
    SortedOneofsMember(r, Listed(needed), OwnedOneof(m, o));
    var i := VariantOfOneof(c, Listed(needed), oneofs, Body(schema.records, schema.variants), OwnedOneof(m, o));
  }

  lemma VariantOfOneof(c: Context, messages: seq<FullName>, oneofs: seq<OwnedOneof>, body: Body, p: OwnedOneof)
      returns (i: nat)
    requires Parts(c, messages, oneofs, body) && p in oneofs
    ensures i < |body.variants| && body.variants[i].fullName == p.descriptor.fullName
  {
    i :| 0 <= i < |oneofs| && oneofs[i] == p;
  }

  lemma OneofBelowOrders(oneofs: seq<OwnedOneof>)
    requires forall o, p :: o in oneofs && p in oneofs && o.descriptor.fullName == p.descriptor.fullName ==> o == p
    ensures Orders(OneofBelow, oneofs)
  {
    forall o: OwnedOneof, p: OwnedOneof
      ensures OneofBelow(o, p) || OneofBelow(p, o)
      ensures OneofBelow(o, p) && OneofBelow(p, o) ==> o.descriptor.fullName == p.descriptor.fullName
    {
      BelowTotal(o.descriptor.fullName, p.descriptor.fullName);
    }
    forall o: OwnedOneof, p: OwnedOneof, q: OwnedOneof | OneofBelow(o, p) && OneofBelow(p, q)
      ensures OneofBelow(o, q)
    {
      BelowTransitive(o.descriptor.fullName, p.descriptor.fullName, q.descriptor.fullName);
    }
  }

  lemma OneofsOrdered(r: Registry, messages: seq<FullName>)
    requires Linked(r)
    ensures SortedBy(SortedOneofs(r, messages), OneofBelow)
  {
    var oneofs := RealOneofs(r, messages);
    forall o, p | o in oneofs && p in oneofs && o.descriptor.fullName == p.descriptor.fullName
      ensures o == p
    {
      RealOneofsMember(r, messages, o);
      RealOneofsMember(r, messages, p);
      OneofUnique(r, o.message, p.message, o.descriptor, p.descriptor);
    }
    OneofBelowOrders(oneofs);
    SortSorted(oneofs, OneofBelow);
  }

  /** The variants stand in the order of their oneofs' full names. */
  lemma VariantsOrdered(r: Registry, package: FullName, paths: set<string>, schema: WitSchema, i: nat, j: nat)
    requires Linked(r) && IsSchemaOf(r, package, paths, schema) && i < j < |schema.variants|
    ensures Below(schema.variants[i].fullName, schema.variants[j].fullName)
  {
    var needed, c, oneofs := SchemaConverted(r, package, paths, schema);
    OneofsOrdered(r, Listed(needed));
    InOrder(c, Listed(needed), oneofs, Body(schema.records, schema.variants), i, j);
  }

  lemma InOrder(c: Context, messages: seq<FullName>, oneofs: seq<OwnedOneof>, body: Body, i: nat, j: nat)
    requires Parts(c, messages, oneofs, body) && SortedBy(oneofs, OneofBelow) && i < j < |body.variants|
    ensures Below(body.variants[i].fullName, body.variants[j].fullName)
  {
    assert OneofBelow(oneofs[i], oneofs[j]);
  }
}
