/** Every schema is closed, free of name collisions and acyclic. */
module SchemaSound {
  import opened Prelude
  import opened PackageNames
  import opened Identifiers
  import opened Order
  import opened Wit
  import opened Descriptors
  import opened Collect
  import opened Cycles
  import opened Schema
  import opened Build
  import opened Package
  import opened Records

  // ----- what a good schema is -----

  predicate References(t: WitType, id: string) {
    match t
    case Scalar(_) => false
    case Named(identifier) => identifier == id
    case ListOf(element) => References(element, id)
    case OptionOf(element) => References(element, id)
  }

  ghost predicate RecordRefers(record: WitRecord, id: string) {
    exists j :: 0 <= j < |record.fields| && References(record.fields[j].typeId, id)
  }

  ghost predicate VariantRefers(variant: WitVariant, id: string) {
    exists j :: 0 <= j < |variant.cases| && variant.cases[j].typeId.Some?
      && References(variant.cases[j].typeId.value, id)
  }

  ghost predicate Defined(body: Body, id: string) {
    || (exists k :: 0 <= k < |body.records| && body.records[k].name == id)
    || (exists k :: 0 <= k < |body.variants| && body.variants[k].name == id)
  }

  /** Every type referred to is defined. */
  ghost predicate Closed(body: Body) {
    && (forall k, id :: 0 <= k < |body.records| && RecordRefers(body.records[k], id) ==> Defined(body, id))
    && (forall k, id :: 0 <= k < |body.variants| && VariantRefers(body.variants[k], id) ==> Defined(body, id))
  }

  /** No two definitions share a name. */
  ghost predicate DistinctDefinitions(body: Body) {
    && (forall j, k :: 0 <= j < k < |body.records| ==> body.records[j].name != body.records[k].name)
    && (forall j, k :: 0 <= j < k < |body.variants| ==> body.variants[j].name != body.variants[k].name)
    && (forall j, k :: 0 <= j < |body.records| && 0 <= k < |body.variants| ==>
         body.records[j].name != body.variants[k].name)
  }

  /** A kebab-case identifier that starts with a letter, escaped exactly when it is a keyword. */
  predicate IsIdentifier(s: string) {
    var n := TrimPercent(s);
    Kebab(n) && n != [] && IsLower(n[0]) && s == EscapeKeyword(n)
  }

  ghost predicate GoodRecord(record: WitRecord) {
    && IsIdentifier(record.name) && record.fields != []
    && (forall j :: 0 <= j < |record.fields| ==> IsIdentifier(record.fields[j].name))
    && (forall j, k :: 0 <= j < k < |record.fields| ==> record.fields[j].name != record.fields[k].name)
  }

  ghost predicate GoodVariant(variant: WitVariant) {
    && IsIdentifier(variant.name) && variant.cases != []
    && (forall j :: 0 <= j < |variant.cases| ==> IsIdentifier(variant.cases[j].name))
    && (forall j, k :: 0 <= j < k < |variant.cases| ==> variant.cases[j].name != variant.cases[k].name)
  }

  /** Whatever is referred to ranks strictly below what refers to it. */
  ghost predicate Ranked(body: Body, records: seq<nat>, variants: seq<nat>) {
    && |records| == |body.records| && |variants| == |body.variants|
    && (forall j, k :: 0 <= j < |records| && 0 <= k < |records|
                       && RecordRefers(body.records[j], body.records[k].name) ==>
          records[k] < records[j])
    && (forall j, k :: 0 <= j < |records| && 0 <= k < |variants|
                       && RecordRefers(body.records[j], body.variants[k].name) ==>
          variants[k] < records[j])
    && (forall j, k :: 0 <= j < |variants| && 0 <= k < |records|
                       && VariantRefers(body.variants[j], body.records[k].name) ==>
          records[k] < variants[j])
    && (forall j, k :: 0 <= j < |variants| && 0 <= k < |variants|
                       && VariantRefers(body.variants[j], body.variants[k].name) ==>
          variants[k] < variants[j])
  }

  /** The graph of records and variants has no cycle. */
  ghost predicate Acyclic(body: Body) {
    exists records, variants :: Ranked(body, records, variants)
  }

  ghost predicate WellFormed(body: Body) {
    && Closed(body) && DistinctDefinitions(body) && Acyclic(body)
    && (forall k :: 0 <= k < |body.records| ==> GoodRecord(body.records[k]))
    && (forall k :: 0 <= k < |body.variants| ==> GoodVariant(body.variants[k]))
  }

  // ----- what a conversion starts from -----

  /** Names identify the messages to convert, each of which is listed once. */
  ghost predicate Sources(c: Context, messages: seq<FullName>) {
    && Linked(c.registry)
    && (forall m :: m in messages <==> m in c.names)
    && (forall j, k :: 0 <= j < k < |messages| ==> messages[j] != messages[k])
    && (forall m :: m in c.names ==> m in c.registry.messages && IsIdentifier(c.names[m]))
    && (forall m, n :: m in c.names && n in c.names && c.names[m] == c.names[n] ==> m == n)
  }

  /** The oneofs, variants and records of one conversion. */
  ghost predicate Parts(c: Context, messages: seq<FullName>, oneofs: seq<OwnedOneof>, body: Body) {
    && oneofs == SortedOneofs(c.registry, messages)
    && OneofsNamed(c.names, oneofs)
    && VariantsOk(c, oneofs) && body.variants == AllVariants(c, oneofs)
    && RecordsOk(c, ByFullName(body.variants), NonEmpty(c.registry, messages))
    && body.records == AllRecords(c, ByFullName(body.variants), NonEmpty(c.registry, messages))
  }

  lemma NormalizedIdentifier(s: string)
    requires Normalized(s).Some?
    ensures IsIdentifier(Normalized(s).value)
  {
    NormalizedShape(s);
  }

  // ----- names -----

  lemma {:induction false} NonEmptyDistinct(r: Registry, messages: seq<FullName>)
    requires forall j, k :: 0 <= j < k < |messages| ==> messages[j] != messages[k]
    ensures var s := NonEmpty(r, messages); forall j, k :: 0 <= j < k < |s| ==> s[j] != s[k]
  {
    if messages != [] {
      var n := |messages| - 1;
      NonEmptyDistinct(r, messages[..n]);
      forall j | 0 <= j < |NonEmpty(r, messages[..n])|
        ensures NonEmpty(r, messages[..n])[j] != messages[n]
      {
        NonEmptyMember(r, messages[..n], NonEmpty(r, messages[..n])[j]);
      }
    }
  }

  /** The record at `k` is that of the `k`-th message with fields. */
  lemma RecordAt(c: Context, messages: seq<FullName>, oneofs: seq<OwnedOneof>, body: Body, k: nat)
    requires Sources(c, messages) && Parts(c, messages, oneofs, body) && k < |body.records|
    ensures var m := body.records[k].fullName;
            && m in messages && m in c.names && m in c.registry.messages && !IsEmptyMessage(c.registry, m)
            && m == NonEmpty(c.registry, messages)[k]
            && RecordOk(c, ByFullName(body.variants), m)
            && body.records[k] == RecordOf(c, ByFullName(body.variants), m)
            && body.records[k].name == c.names[m]
  {
    NonEmptyMember(c.registry, messages, NonEmpty(c.registry, messages)[k]);
  }

  lemma RecordFor(c: Context, messages: seq<FullName>, oneofs: seq<OwnedOneof>, body: Body, m: FullName)
      returns (k: nat)
    requires Sources(c, messages) && Parts(c, messages, oneofs, body)
    requires m in messages && !IsEmptyMessage(c.registry, m)
    ensures k < |body.records| && body.records[k].fullName == m
  {
    NonEmptyMember(c.registry, messages, m);
    k :| 0 <= k < |NonEmpty(c.registry, messages)| && NonEmpty(c.registry, messages)[k] == m;
  }

  lemma VariantAt(c: Context, messages: seq<FullName>, oneofs: seq<OwnedOneof>, body: Body, k: nat)
    requires Sources(c, messages) && Parts(c, messages, oneofs, body) && k < |body.variants|
    ensures k < |oneofs| && VariantOk(c, oneofs[k]) && body.variants[k] == VariantOf(c, oneofs[k])
    ensures OneofName(c.names, oneofs[k]) == Some(body.variants[k].name) && IsIdentifier(body.variants[k].name)
    ensures body.variants[k].name !in c.names.Values
    ensures oneofs[k].message in messages && oneofs[k].descriptor in c.registry.messages[oneofs[k].message].oneofs
    ensures !oneofs[k].descriptor.synthetic
  {
    assert oneofs[k] in oneofs;
    SortedOneofsMember(c.registry, messages, oneofs[k]);
    NormalizedIdentifier(TrimPercent(c.names[oneofs[k].message]) + "." + oneofs[k].descriptor.name);
  }

  lemma RecordsDiffer(c: Context, messages: seq<FullName>, oneofs: seq<OwnedOneof>, body: Body, j: nat, k: nat)
    requires Sources(c, messages) && Parts(c, messages, oneofs, body) && j < k < |body.records|
    ensures body.records[j].name != body.records[k].name
  {
    NonEmptyDistinct(c.registry, messages);
    RecordAt(c, messages, oneofs, body, j);
    RecordAt(c, messages, oneofs, body, k);
  }

  lemma VariantsDiffer(c: Context, messages: seq<FullName>, oneofs: seq<OwnedOneof>, body: Body, j: nat, k: nat)
    requires Sources(c, messages) && Parts(c, messages, oneofs, body) && j < k < |body.variants|
    ensures body.variants[j].name != body.variants[k].name
  {
    VariantAt(c, messages, oneofs, body, j);
    VariantAt(c, messages, oneofs, body, k);
  }

  lemma RecordIsNoVariant(c: Context, messages: seq<FullName>, oneofs: seq<OwnedOneof>, body: Body, j: nat, k: nat)
    requires Sources(c, messages) && Parts(c, messages, oneofs, body) && j < |body.records| && k < |body.variants|
    ensures body.records[j].name != body.variants[k].name
  {
    RecordAt(c, messages, oneofs, body, j);
    VariantAt(c, messages, oneofs, body, k);
    assert body.records[j].name in c.names.Values;
  }

  lemma DefinitionsDistinct(c: Context, messages: seq<FullName>, oneofs: seq<OwnedOneof>, body: Body)
    requires Sources(c, messages) && Parts(c, messages, oneofs, body)
    ensures DistinctDefinitions(body)
  {
    forall j, k | 0 <= j < k < |body.records|
      ensures body.records[j].name != body.records[k].name
    {
      RecordsDiffer(c, messages, oneofs, body, j, k);
    }
    forall j, k | 0 <= j < k < |body.variants|
      ensures body.variants[j].name != body.variants[k].name
    {
      VariantsDiffer(c, messages, oneofs, body, j, k);
    }
    forall j, k | 0 <= j < |body.records| && 0 <= k < |body.variants|
      ensures body.records[j].name != body.variants[k].name
    {
      RecordIsNoVariant(c, messages, oneofs, body, j, k);
    }
  }

  // ----- fields and cases -----

  lemma EntryIdentifier(c: Context, variants: Variants, f: FieldDescriptor)
    requires EntryOf(c, variants, f).Some?
    ensures IsIdentifier(EntryOf(c, variants, f).value.name)
  {
    EntryNamed(c, variants, f);
    NormalizedIdentifier(if Real(f) then f.oneof.value.name else f.name);
  }

  lemma CaseIdentifier(c: Context, f: FieldDescriptor)
    requires CaseOf(c, f).Some?
    ensures IsIdentifier(CaseOf(c, f).value.name)
  {
    CaseNamed(c, f);
    NormalizedIdentifier(f.name);
  }

  lemma LeadingNotEmpty(r: Registry, m: FullName)
    requires Linked(r) && m in r.messages && !IsEmptyMessage(r, m)
    ensures LeadingFields(r, m) != []
  {
    var f := r.messages[m].fields[0];
    if Real(f) {
      OneofHasEntry(r, m, f);
    } else {
      LeadingFieldsExactly(r, m);
      assert f in r.messages[m].fields;
    }
  }

  lemma RecordIsGood(c: Context, messages: seq<FullName>, oneofs: seq<OwnedOneof>, body: Body, k: nat)
    requires Sources(c, messages) && Parts(c, messages, oneofs, body) && k < |body.records|
    ensures GoodRecord(body.records[k])
  {
    RecordAt(c, messages, oneofs, body, k);
    var variants, m := ByFullName(body.variants), body.records[k].fullName;
    var leading := LeadingFields(c.registry, m);
    LeadingNotEmpty(c.registry, m);
    forall j | 0 <= j < |leading|
      ensures EntryName(leading[j]) == Some(body.records[k].fields[j].name)
      ensures IsIdentifier(body.records[k].fields[j].name)
    {
      EntryNamed(c, variants, leading[j]);
      EntryIdentifier(c, variants, leading[j]);
    }
  }

  lemma VariantIsGood(c: Context, messages: seq<FullName>, oneofs: seq<OwnedOneof>, body: Body, k: nat)
    requires Sources(c, messages) && Parts(c, messages, oneofs, body) && k < |body.variants|
    ensures GoodVariant(body.variants[k])
  {
    VariantAt(c, messages, oneofs, body, k);
    var members := InNumberOrder(Members(c.registry, oneofs[k]));
    assert |members| == |multiset(members)| == |multiset(Members(c.registry, oneofs[k]))|;
    forall j | 0 <= j < |members|
      ensures Normalized(members[j].name) == Some(body.variants[k].cases[j].name)
      ensures IsIdentifier(body.variants[k].cases[j].name)
    {
      CaseNamed(c, members[j]);
      CaseIdentifier(c, members[j]);
    }
  }

  // ----- references -----

  /** What the type of a field that stands for itself refers to. */
  lemma OrdinaryRefers(c: Context, variants: Variants, f: FieldDescriptor, id: string)
    requires Linked(c.registry) && FieldLinked(c.registry, f)
    requires !Real(f) && EntryOf(c, variants, f).Some? && References(EntryOf(c, variants, f).value.typeId, id)
    ensures f.message in c.names && c.names[f.message] == id && !IsEmptyMessage(c.registry, f.message)
    ensures EntryOf(c, variants, f).value.messageTargets == [f.message]
  {
  }

  /** What the type of a oneof member's case refers to. */
  lemma CaseRefers(c: Context, f: FieldDescriptor, id: string)
    requires CaseOf(c, f).Some? && CaseOf(c, f).value.typeId.Some? && References(CaseOf(c, f).value.typeId.value, id)
    ensures f.message in c.names && c.names[f.message] == id && !IsEmptyMessage(c.registry, f.message)
    ensures CaseOf(c, f).value.messageTarget == Some(f.message)
  {
  }

  /** The variant of a real field's oneof. */
  lemma VariantFor(c: Context, messages: seq<FullName>, oneofs: seq<OwnedOneof>, body: Body, m: FullName,
                   f: FieldDescriptor)
      returns (k: nat)
    requires Sources(c, messages) && Parts(c, messages, oneofs, body) && m in messages && m in c.registry.messages
    requires f in c.registry.messages[m].fields && Real(f)
    ensures k < |oneofs| && oneofs[k] == OwnedOneof(m, f.oneof.value) && k < |body.variants|
    ensures f.oneof.value.fullName in ByFullName(body.variants)
    ensures ByFullName(body.variants)[f.oneof.value.fullName] == body.variants[k]
  {
    NoVariantMissing(c, messages, m);
    var j :| 0 <= j < |c.registry.messages[m].fields| && c.registry.messages[m].fields[j] == f;
    assert MessageLinked(c.registry, c.registry.messages[m]);
    k := IndexOf(body.variants, f.oneof.value.fullName);
    VariantAt(c, messages, oneofs, body, k);
    OneofUnique(c.registry, m, oneofs[k].message, f.oneof.value, oneofs[k].descriptor);
  }

  /** The field behind the entry of a record. */
  lemma EntryAt(c: Context, messages: seq<FullName>, oneofs: seq<OwnedOneof>, body: Body, i: nat, j: nat)
      returns (f: FieldDescriptor)
    requires Sources(c, messages) && Parts(c, messages, oneofs, body) && i < |body.records|
    requires j < |body.records[i].fields|
    ensures body.records[i].fullName in messages && body.records[i].fullName in c.registry.messages
    ensures f in c.registry.messages[body.records[i].fullName].fields && FieldLinked(c.registry, f)
    ensures EntryOf(c, ByFullName(body.variants), f) == Some(body.records[i].fields[j])
  {
    RecordAt(c, messages, oneofs, body, i);
    var m := body.records[i].fullName;
    f := LeadingFields(c.registry, m)[j];
    LeadingFieldsFrom(c.registry, m, f);
    MemberLinked(c.registry, m, f);
  }

  lemma OrdinaryReference(c: Context, messages: seq<FullName>, oneofs: seq<OwnedOneof>, body: Body, i: nat, j: nat,
                          f: FieldDescriptor, id: string) returns (k: nat)
    requires Sources(c, messages) && Parts(c, messages, oneofs, body) && i < |body.records|
    requires j < |body.records[i].fields|
    requires !Real(f) && FieldLinked(c.registry, f)
    requires EntryOf(c, ByFullName(body.variants), f) == Some(body.records[i].fields[j])
    requires References(body.records[i].fields[j].typeId, id)
    ensures k < |body.records| && body.records[k].name == id
    ensures Edge(body.records, body.records[i].fullName, body.records[k].fullName)
  {
    OrdinaryRefers(c, ByFullName(body.variants), f, id);
    k := RecordFor(c, messages, oneofs, body, f.message);
    RecordAt(c, messages, oneofs, body, k);
    assert f.message in body.records[i].fields[j].messageTargets;
    assert FieldsTarget(body.records[i].fields, f.message);
  }

  lemma OneofReference(c: Context, variants: Variants, f: FieldDescriptor, id: string)
    requires Real(f) && f.oneof.value.fullName in variants
    requires EntryOf(c, variants, f).Some? && References(EntryOf(c, variants, f).value.typeId, id)
    ensures variants[f.oneof.value.fullName].name == id
  {
  }

  /** A record refers to a record it depends on, or to the variant of one of its oneofs. */
  lemma RecordReference(c: Context, messages: seq<FullName>, oneofs: seq<OwnedOneof>, body: Body, i: nat, id: string)
      returns (record: bool, k: nat)
    requires Sources(c, messages) && Parts(c, messages, oneofs, body) && i < |body.records|
    requires RecordRefers(body.records[i], id)
    ensures record ==> k < |body.records| && body.records[k].name == id
                       && Edge(body.records, body.records[i].fullName, body.records[k].fullName)
    ensures !record ==> k < |body.variants| && k < |oneofs| && body.variants[k].name == id
                        && oneofs[k].message == body.records[i].fullName
  {
    var j :| 0 <= j < |body.records[i].fields| && References(body.records[i].fields[j].typeId, id);
    var f := EntryAt(c, messages, oneofs, body, i, j);
    record := !Real(f);
    if record {
      k := OrdinaryReference(c, messages, oneofs, body, i, j, f, id);
    } else {
      k := VariantFor(c, messages, oneofs, body, body.records[i].fullName, f);
      OneofReference(c, ByFullName(body.variants), f, id);
    }
  }

  lemma MemberLinked(r: Registry, m: FullName, f: FieldDescriptor)
    requires Linked(r) && m in r.messages && f in r.messages[m].fields
    ensures FieldLinked(r, f)
  {
  }

  lemma {:induction false} CaseTarget(cases: seq<WitCase>, j: nat)
    requires j < |cases| && cases[j].messageTarget.Some?
    ensures cases[j].messageTarget.value in CaseTargets(cases)
  {
    var n := |cases| - 1;
    if j < n {
      assert cases[..n][j] == cases[j];
      CaseTarget(cases[..n], j);
    }
  }

  /** The entry that stands for the oneof of a member. */
  lemma HoldingEntry(c: Context, messages: seq<FullName>, oneofs: seq<OwnedOneof>, body: Body, m: FullName, k: nat,
                     member: FieldDescriptor) returns (j: nat, f: FieldDescriptor)
    requires Sources(c, messages) && Parts(c, messages, oneofs, body) && k < |body.records|
    requires body.records[k].fullName == m
    requires m in c.registry.messages && member in c.registry.messages[m].fields && Real(member)
    ensures j < |body.records[k].fields| && SameOneof(f, member) && f in c.registry.messages[m].fields
    ensures EntryOf(c, ByFullName(body.variants), f) == Some(body.records[k].fields[j])
  {
    RecordAt(c, messages, oneofs, body, k);
    OneofHasEntry(c.registry, m, member);
    var leading := LeadingFields(c.registry, m);
    j :| 0 <= j < |leading| && SameOneof(leading[j], member);
    f := leading[j];
    LeadingFieldsFrom(c.registry, m, f);
  }

  /** The record that holds a variant depends on every target of its cases. */
  lemma HolderDepends(c: Context, messages: seq<FullName>, oneofs: seq<OwnedOneof>, body: Body, i: nat,
                      member: FieldDescriptor, t: FullName)
    requires Sources(c, messages) && Parts(c, messages, oneofs, body) && i < |body.variants| && i < |oneofs|
    requires oneofs[i].message in messages && oneofs[i].message in c.registry.messages
    requires member in c.registry.messages[oneofs[i].message].fields && member.oneof == Some(oneofs[i].descriptor)
    requires Real(member)
    requires t in CaseTargets(body.variants[i].cases)
    ensures Edge(body.records, oneofs[i].message, t)
  {
    var m := oneofs[i].message;
    var k := RecordFor(c, messages, oneofs, body, m);
    var j, f := HoldingEntry(c, messages, oneofs, body, m, k, member);
    var v := VariantFor(c, messages, oneofs, body, m, f);
    VariantAt(c, messages, oneofs, body, v);
    VariantAt(c, messages, oneofs, body, i);
    OneofUnique(c.registry, m, m, oneofs[v].descriptor, oneofs[i].descriptor);
    OneofEntryTargets(c, ByFullName(body.variants), f);
    assert FieldsTarget(body.records[k].fields, t);
  }

  /** A variant refers to records only, and the record that holds it depends on them. */
  lemma VariantReference(c: Context, messages: seq<FullName>, oneofs: seq<OwnedOneof>, body: Body, i: nat, id: string)
      returns (k: nat)
    requires Sources(c, messages) && Parts(c, messages, oneofs, body) && i < |body.variants| && i < |oneofs|
    requires VariantRefers(body.variants[i], id)
    ensures k < |body.records| && body.records[k].name == id && id in c.names.Values
    ensures Edge(body.records, oneofs[i].message, body.records[k].fullName)
  {
    VariantAt(c, messages, oneofs, body, i);
    var m := oneofs[i].message;
    var cases := body.variants[i].cases;
    var j :| 0 <= j < |cases| && cases[j].typeId.Some? && References(cases[j].typeId.value, id);
    var members := Members(c.registry, oneofs[i]);
    var member := InNumberOrder(members)[j];
    assert CaseOf(c, member) == Some(cases[j]);
    CaseRefers(c, member, id);
    CaseTarget(cases, j);
    SortMembers(members, Precedes, member);
    MembersMember(c.registry.messages[m].fields, oneofs[i].descriptor, member);
    HolderDepends(c, messages, oneofs, body, i, member, member.message);
    k := RecordFor(c, messages, oneofs, body, member.message);
    RecordAt(c, messages, oneofs, body, k);
  }

  lemma BodyIsClosed(c: Context, messages: seq<FullName>, oneofs: seq<OwnedOneof>, body: Body)
    requires Sources(c, messages) && Parts(c, messages, oneofs, body)
    ensures Closed(body)
  {
    forall k, id | 0 <= k < |body.records| && RecordRefers(body.records[k], id)
      ensures Defined(body, id)
    {
      var record, j := RecordReference(c, messages, oneofs, body, k, id);
    }
    forall k, id | 0 <= k < |body.variants| && VariantRefers(body.variants[k], id)
      ensures Defined(body, id)
    {
      var j := VariantReference(c, messages, oneofs, body, k, id);
    }
  }

  // ----- ranks -----

  function FirstIndex(order: seq<FullName>, m: FullName): (i: nat)
    ensures m in order ==> i < |order| && order[i] == m && m !in order[..i]
  {
    if order == [] || order[0] == m then 0
    else
      var i := 1 + FirstIndex(order[1..], m);
      assert m in order ==> m in order[1..];
      i
  }

  lemma EdgeDescends(records: seq<WitRecord>, order: seq<FullName>, a: FullName, b: FullName)
    requires TopologicalOrder(records, order) && Edge(records, a, b)
    ensures FirstIndex(order, b) < FirstIndex(order, a)
  {
  }

  function RecordRanks(body: Body, order: seq<FullName>): seq<nat> {
    seq(|body.records|, k requires 0 <= k < |body.records| => 2 * FirstIndex(order, body.records[k].fullName) + 1)
  }

  function VariantRanks(oneofs: seq<OwnedOneof>, order: seq<FullName>): seq<nat> {
    seq(|oneofs|, k requires 0 <= k < |oneofs| => 2 * FirstIndex(order, oneofs[k].message))
  }

  lemma RecordAboveRecord(c: Context, messages: seq<FullName>, oneofs: seq<OwnedOneof>, body: Body,
                          order: seq<FullName>, j: nat, k: nat)
    requires Sources(c, messages) && Parts(c, messages, oneofs, body) && TopologicalOrder(body.records, order)
    requires j < |body.records| && k < |body.records| && RecordRefers(body.records[j], body.records[k].name)
    ensures FirstIndex(order, body.records[k].fullName) < FirstIndex(order, body.records[j].fullName)
  {
    DefinitionsDistinct(c, messages, oneofs, body);
    var record, t := RecordReference(c, messages, oneofs, body, j, body.records[k].name);
    if record {
      EdgeDescends(body.records, order, body.records[j].fullName, body.records[t].fullName);
    }
  }

  lemma RecordAboveVariant(c: Context, messages: seq<FullName>, oneofs: seq<OwnedOneof>, body: Body, j: nat, k: nat)
    requires Sources(c, messages) && Parts(c, messages, oneofs, body)
    requires j < |body.records| && k < |body.variants| && RecordRefers(body.records[j], body.variants[k].name)
    ensures k < |oneofs| && oneofs[k].message == body.records[j].fullName
  {
    DefinitionsDistinct(c, messages, oneofs, body);
    var record, t := RecordReference(c, messages, oneofs, body, j, body.variants[k].name);
  }

  lemma VariantAboveRecord(c: Context, messages: seq<FullName>, oneofs: seq<OwnedOneof>, body: Body,
                           order: seq<FullName>, j: nat, k: nat)
    requires Sources(c, messages) && Parts(c, messages, oneofs, body) && TopologicalOrder(body.records, order)
    requires j < |body.variants| && j < |oneofs| && k < |body.records|
    requires VariantRefers(body.variants[j], body.records[k].name)
    ensures FirstIndex(order, body.records[k].fullName) < FirstIndex(order, oneofs[j].message)
  {
    DefinitionsDistinct(c, messages, oneofs, body);
    var t := VariantReference(c, messages, oneofs, body, j, body.records[k].name);
    EdgeDescends(body.records, order, oneofs[j].message, body.records[t].fullName);
  }

  lemma VariantIsNoTarget(c: Context, messages: seq<FullName>, oneofs: seq<OwnedOneof>, body: Body, j: nat, k: nat)
    requires Sources(c, messages) && Parts(c, messages, oneofs, body)
    requires j < |body.variants| && j < |oneofs| && k < |body.variants|
    ensures !VariantRefers(body.variants[j], body.variants[k].name)
  {
    VariantAt(c, messages, oneofs, body, k);
    if VariantRefers(body.variants[j], body.variants[k].name) {
      var t := VariantReference(c, messages, oneofs, body, j, body.variants[k].name);
      assert false;
    }
  }

  lemma BodyIsAcyclic(c: Context, messages: seq<FullName>, oneofs: seq<OwnedOneof>, body: Body)
    requires Sources(c, messages) && Parts(c, messages, oneofs, body) && Ordered(body.records)
    ensures Acyclic(body)
  {
    var order :| TopologicalOrder(body.records, order);
    var records, variants := RecordRanks(body, order), VariantRanks(oneofs, order);
    forall j, k | 0 <= j < |records| && 0 <= k < |records| && RecordRefers(body.records[j], body.records[k].name)
      ensures records[k] < records[j]
    {
      RecordAboveRecord(c, messages, oneofs, body, order, j, k);
    }
    forall j, k | 0 <= j < |records| && 0 <= k < |variants| && RecordRefers(body.records[j], body.variants[k].name)
      ensures variants[k] < records[j]
    {
      RecordAboveVariant(c, messages, oneofs, body, j, k);
    }
    forall j, k | 0 <= j < |variants| && 0 <= k < |records| && VariantRefers(body.variants[j], body.records[k].name)
      ensures records[k] < variants[j]
    {
      VariantAboveRecord(c, messages, oneofs, body, order, j, k);
    }
    forall j, k | 0 <= j < |variants| && 0 <= k < |variants|
      ensures !VariantRefers(body.variants[j], body.variants[k].name)
    {
      VariantIsNoTarget(c, messages, oneofs, body, j, k);
    }
    assert Ranked(body, records, variants);
  }

  // ----- every schema -----

  lemma ConversionWellFormed(c: Context, messages: seq<FullName>, body: Body)
    requires Sources(c, messages) && Converts(c, messages, body.records, body.variants)
    ensures WellFormed(body)
  {
    var oneofs := SortedOneofs(c.registry, messages);
    assert Parts(c, messages, oneofs, body);
    BodyIsClosed(c, messages, oneofs, body);
    DefinitionsDistinct(c, messages, oneofs, body);
    BodyIsAcyclic(c, messages, oneofs, body);
    forall k | 0 <= k < |body.records|
      ensures GoodRecord(body.records[k])
    {
      RecordIsGood(c, messages, oneofs, body, k);
    }
    forall k | 0 <= k < |body.variants|
      ensures GoodVariant(body.variants[k])
    {
      VariantIsGood(c, messages, oneofs, body, k);
    }
  }

  lemma ListedDistinct(s: set<FullName>)
    ensures var l := Listed(s); forall j, k :: 0 <= j < k < |l| ==> l[j] != l[k]
  {
    var l := Listed(s);
    forall j, k | 0 <= j < k < |l|
      ensures l[j] != l[k]
    {
      assert l == l[..j] + [l[j]] + l[j + 1..k] + [l[k]] + l[k + 1..];
      assert multiset(l)[l[j]] <= 1;
    }
  }

  lemma NameOf(r: Registry, package: FullName, needed: set<FullName>, m: FullName)
    requires Nameable(r, package, needed) && m in needed && m in r.messages
    ensures MessageName(package, m) == Some(NamesOf(package, needed)[m]) && IsIdentifier(NamesOf(package, needed)[m])
  {
    var e := SchemaError(m, UnsupportedIdentifier);
    assert !Objection(r, package, needed, e);
    assert !Objects(r, package, needed, m, e);
    NormalizedIdentifier(TrimPrefix(m, package + "."));
  }

  lemma NoClash(r: Registry, package: FullName, needed: set<FullName>, m: FullName, n: FullName)
    requires Nameable(r, package, needed) && m in needed && n in needed && m in r.messages && m != n
    requires MessageName(package, m).Some?
    ensures MessageName(package, m) != MessageName(package, n)
  {
    var e := SchemaError(m, UnsupportedNameCollision);
    assert !Objection(r, package, needed, e);
    assert !Objects(r, package, needed, m, e);
  }

  lemma NamesDiffer(r: Registry, package: FullName, needed: set<FullName>, m: FullName, n: FullName)
    requires Nameable(r, package, needed) && m in needed && n in needed && m in r.messages && n in r.messages && m != n
    ensures NamesOf(package, needed)[m] != NamesOf(package, needed)[n]
  {
    NameOf(r, package, needed, m);
    NameOf(r, package, needed, n);
    NoClash(r, package, needed, m, n);
  }

  lemma NeededNamed(r: Registry, package: FullName, needed: set<FullName>)
    requires Linked(r) && needed <= r.messages.Keys && Nameable(r, package, needed)
    ensures Sources(Context(r, NamesOf(package, needed)), Listed(needed))
  {
    var names := NamesOf(package, needed);
    ListedDistinct(needed);
    forall m
      ensures m in Listed(needed) <==> m in needed
    {
      ListedMember(needed, m);
    }
    forall m | m in needed
      ensures IsIdentifier(names[m])
    {
      NameOf(r, package, needed, m);
    }
    forall m, n | m in needed && n in needed && m != n
      ensures names[m] != names[n]
    {
      NamesDiffer(r, package, needed, m, n);
    }
  }

  /** Every schema of a package is closed, free of name collisions, acyclic and made of proper identifiers. */
  lemma SchemaIsWellFormed(r: Registry, package: FullName, paths: set<string>, schema: WitSchema)
    requires Linked(r) && IsSchemaOf(r, package, paths, schema)
    ensures WellFormed(Body(schema.records, schema.variants))
  {
    var needed := Needed(r, package, RequestedIn(r, paths));
    NeededNamed(r, package, needed);
    ConversionWellFormed(Context(r, NamesOf(package, needed)), Listed(needed), Body(schema.records, schema.variants));
  }
}
