/** Building the schema of one package. */
module Package {
  import opened Prelude
  import opened PackageNames
  import opened Order
  import opened Wit
  import opened Descriptors
  import opened Collect
  import opened Cycles
  import opened Schema
  import opened Records
  import opened Build
  import opened SchemaFaults

  // ----- no variant is missing -----

  lemma {:induction false} RealOfMember(m: FullName, oneofs: seq<OneofDescriptor>, o: OneofDescriptor)
    ensures OwnedOneof(m, o) in RealOf(m, oneofs) <==> o in oneofs && !o.synthetic
    ensures forall p :: p in RealOf(m, oneofs) ==> p.message == m
  {
    if oneofs != [] {
      var n := |oneofs| - 1;
      RealOfMember(m, oneofs[..n], o);
      assert oneofs == oneofs[..n] + [oneofs[n]];
    }
  }

  /** The real oneofs of the listed messages, and no others. */
  lemma {:induction false} RealOneofsMember(r: Registry, messages: seq<FullName>, p: OwnedOneof)
    ensures p in RealOneofs(r, messages)
       <==> p.message in messages && p.message in r.messages
            && p.descriptor in r.messages[p.message].oneofs && !p.descriptor.synthetic
  {
    if messages != [] {
      var n := |messages| - 1;
      RealOneofsMember(r, messages[..n], p);
      assert messages == messages[..n] + [messages[n]];
      if messages[n] in r.messages {
        RealOfMember(messages[n], r.messages[messages[n]].oneofs, p.descriptor);
      }
    }
  }

  lemma SortedOneofsMember(r: Registry, messages: seq<FullName>, p: OwnedOneof)
    ensures p in SortedOneofs(r, messages)
       <==> p.message in messages && p.message in r.messages
            && p.descriptor in r.messages[p.message].oneofs && !p.descriptor.synthetic
  {
    SortMembers(RealOneofs(r, messages), OneofBelow, p);
    RealOneofsMember(r, messages, p);
  }

  lemma {:induction false} IndexHas(variants: seq<WitVariant>, k: nat)
    requires k < |variants|
    ensures variants[k].fullName in ByFullName(variants)
  {
    var n := |variants| - 1;
    if k < n {
      assert variants[..n][k] == variants[k];
      IndexHas(variants[..n], k);
    }
  }

  lemma NoVariantMissing(c: Context, messages: seq<FullName>, m: FullName)
    requires Linked(c.registry) && m in messages && m in c.registry.messages
    requires VariantsOk(c, SortedOneofs(c.registry, messages))
    ensures VariantsFor(c.registry, ByFullName(AllVariants(c, SortedOneofs(c.registry, messages))), m)
  {
    var oneofs := SortedOneofs(c.registry, messages);
    var variants := AllVariants(c, oneofs);
    var fields := c.registry.messages[m].fields;
    assert MessageLinked(c.registry, c.registry.messages[m]);
    forall j | 0 <= j < |fields| && Real(fields[j])
      ensures fields[j].oneof.value.fullName in ByFullName(variants)
    {
      var p := OwnedOneof(m, fields[j].oneof.value);
      SortedOneofsMember(c.registry, messages, p);
      var k :| 0 <= k < |oneofs| && oneofs[k] == p;
      IndexHas(variants, k);
    }
  }

  lemma NoVariantsMissing(c: Context, messages: seq<FullName>)
    requires Linked(c.registry) && VariantsOk(c, SortedOneofs(c.registry, messages))
    ensures forall m :: m in messages ==>
              VariantsFor(c.registry, ByFullName(AllVariants(c, SortedOneofs(c.registry, messages))), m)
  {
    forall m | m in messages && m in c.registry.messages
      ensures VariantsFor(c.registry, ByFullName(AllVariants(c, SortedOneofs(c.registry, messages))), m)
    {
      NoVariantMissing(c, messages, m);
    }
  }

  // ----- converting the messages -----

  ghost predicate Convertible(c: Context, messages: seq<FullName>) {
    exists records, variants :: Converts(c, messages, records, variants)
  }

  lemma UnnamedOneof(c: Context, messages: seq<FullName>)
    requires var oneofs := SortedOneofs(c.registry, messages); !OneofsNamed(c.names, oneofs) || !VariantsOk(c, oneofs)
    ensures !Convertible(c, messages)
  {
  }

  /** What is left of a conversion once the oneofs have their variants. */
  ghost predicate RecordsConvert(c: Context, messages: seq<FullName>, oneofs: seq<OwnedOneof>, variants: Variants) {
    && (forall m :: m in messages && IsEmptyMessage(c.registry, m) ==> IsEmptyMember(c.registry, oneofs, m))
    && RecordsOk(c, variants, NonEmpty(c.registry, messages))
    && Ordered(AllRecords(c, variants, NonEmpty(c.registry, messages)))
  }

  lemma ConvertsWithVariants(c: Context, messages: seq<FullName>, oneofs: seq<OwnedOneof>)
    requires oneofs == SortedOneofs(c.registry, messages) && OneofsNamed(c.names, oneofs) && VariantsOk(c, oneofs)
    ensures var variants := AllVariants(c, oneofs);
            && (Convertible(c, messages) <==> RecordsConvert(c, messages, oneofs, ByFullName(variants)))
            && (RecordsConvert(c, messages, oneofs, ByFullName(variants)) ==>
                  Converts(c, messages, AllRecords(c, ByFullName(variants), NonEmpty(c.registry, messages)), variants))
  {
    var variants := AllVariants(c, oneofs);
    if RecordsConvert(c, messages, oneofs, ByFullName(variants)) {
      assert Converts(c, messages, AllRecords(c, ByFullName(variants), NonEmpty(c.registry, messages)), variants);
    }
  }

  /** The records and variants of the messages. It fails exactly when there are none. */
  method ConvertMessages(c: Context, messages: seq<FullName>, namesByIdentifier: map<string, FullName>)
      returns (converted: Result<Body, BuildError>)
    requires Linked(c.registry)
    requires forall j :: 0 <= j < |messages| ==> messages[j] in c.registry.messages && messages[j] in c.names
    requires namesByIdentifier.Keys == c.names.Values
    ensures converted.Ok? ==> Converts(c, messages, converted.value.records, converted.value.variants)
    ensures converted.Err? ==> !Convertible(c, messages)
    ensures converted.Err? ==> converted.error.Unsupported? && ConversionFault(c, messages, converted.error.error)
  {
    ghost var oneofs := SortedOneofs(c.registry, messages);
    var definitions := CollectOneofDefinitions(c, messages, namesByIdentifier);
    if definitions.Err? {
      UnnamedOneof(c, messages);
      return Err(Unsupported(definitions.error));
    }
    var variants := BuildVariants(c, oneofs, definitions.value);
    if variants.Err? {
      UnnamedOneof(c, messages);
      return Err(Unsupported(variants.error));
    }
    var emptyOneofMembers := EmptyOneofMemberNames(c, oneofs, definitions.value);
    ConvertsWithVariants(c, messages, oneofs);
    NoVariantsMissing(c, messages);
    converted := ConvertRecords(c, messages, oneofs, variants.value, emptyOneofMembers);
  }

  // ----- circles -----

  lemma {:induction false} IndexOf(variants: seq<WitVariant>, name: FullName) returns (k: nat)
    requires name in ByFullName(variants)
    ensures k < |variants| && variants[k].fullName == name && ByFullName(variants)[name] == variants[k]
  {
    var n := |variants| - 1;
    if variants[n].fullName == name {
      k := n;
    } else {
      k := IndexOf(variants[..n], name);
    }
  }

  /** Full names of oneofs are unique across all messages. */
  lemma OneofUnique(r: Registry, m: FullName, n: FullName, o: OneofDescriptor, p: OneofDescriptor)
    requires Linked(r) && m in r.messages && n in r.messages && o in r.messages[m].oneofs && p in r.messages[n].oneofs
    requires o.fullName == p.fullName
    ensures m == n && o == p
  {
  }

  lemma {:induction false} CaseTargetFrom(cases: seq<WitCase>, t: FullName) returns (j: nat)
    requires t in CaseTargets(cases)
    ensures j < |cases| && cases[j].messageTarget == Some(t)
  {
    var n := |cases| - 1;
    if cases[n].messageTarget == Some(t) {
      j := n;
    } else {
      j := CaseTargetFrom(cases[..n], t);
    }
  }

  /** A target of a variant is held by a member of its oneof. */
  lemma VariantTargetHeld(c: Context, o: OwnedOneof, t: FullName)
    requires VariantOk(c, o) && t in CaseTargets(VariantOf(c, o).cases)
    ensures HeldBy(c.registry, o.message, t)
  {
    var members := InNumberOrder(Members(c.registry, o));
    var j := CaseTargetFrom(VariantOf(c, o).cases, t);
    var f := members[j];
    assert CaseOf(c, f) == Some(VariantOf(c, o).cases[j]);
    SortMembers(Members(c.registry, o), Precedes, f);
    MembersMember(c.registry.messages[o.message].fields, o.descriptor, f);
    HeldByField(c.registry, o.message, f);
  }

  lemma HeldByField(r: Registry, m: FullName, f: FieldDescriptor)
    requires m in r.messages && f in r.messages[m].fields && f.kind == MessageKind
    ensures HeldBy(r, m, f.message)
  {
  }

  /** The variant behind the entry of a oneof is that of its own message. */
  lemma OwnVariant(c: Context, oneofs: seq<OwnedOneof>, variants: seq<WitVariant>, m: FullName, f: FieldDescriptor)
      returns (k: nat)
    requires Linked(c.registry) && m in c.registry.messages && f in c.registry.messages[m].fields && Real(f)
    requires VariantsOk(c, oneofs) && variants == AllVariants(c, oneofs)
    requires forall k :: 0 <= k < |oneofs| ==> KnownOneof(c.registry, oneofs[k])
    requires f.oneof.value.fullName in ByFullName(variants)
    ensures k < |oneofs| && oneofs[k].message == m && VariantOk(c, oneofs[k])
    ensures ByFullName(variants)[f.oneof.value.fullName] == VariantOf(c, oneofs[k])
  {
    k := IndexOf(variants, f.oneof.value.fullName);
    assert variants[k] == VariantOf(c, oneofs[k]) && KnownOneof(c.registry, oneofs[k]);
    OneofDeclared(c.registry, m, f);
    OneofUnique(c.registry, m, oneofs[k].message, f.oneof.value, oneofs[k].descriptor);
  }

  lemma OneofEntryTargets(c: Context, variants: Variants, f: FieldDescriptor)
    requires Real(f) && EntryOf(c, variants, f).Some?
    ensures f.oneof.value.fullName in variants
    ensures EntryOf(c, variants, f).value.messageTargets == CaseTargets(variants[f.oneof.value.fullName].cases)
  {
  }

  lemma FieldEntryTargets(c: Context, variants: Variants, f: FieldDescriptor)
    requires !Real(f) && EntryOf(c, variants, f).Some?
    ensures forall t :: t in EntryOf(c, variants, f).value.messageTargets ==> f.kind == MessageKind && t == f.message
  {
  }

  /** What an entry depends on is held by a field of the message, or by a member of the entry's oneof. */
  lemma EntryTargetHeld(c: Context, oneofs: seq<OwnedOneof>, variants: seq<WitVariant>, m: FullName,
                        f: FieldDescriptor, t: FullName)
    requires Linked(c.registry) && m in c.registry.messages && f in c.registry.messages[m].fields
    requires VariantsOk(c, oneofs) && variants == AllVariants(c, oneofs)
    requires forall k :: 0 <= k < |oneofs| ==> KnownOneof(c.registry, oneofs[k])
    requires EntryOf(c, ByFullName(variants), f).Some? && t in EntryOf(c, ByFullName(variants), f).value.messageTargets
    ensures HeldBy(c.registry, m, t)
  {
    if Real(f) {
      OneofEntryTargets(c, ByFullName(variants), f);
      var k := OwnVariant(c, oneofs, variants, m, f);
      VariantTargetHeld(c, oneofs[k], t);
    } else {
      FieldEntryTargets(c, ByFullName(variants), f);
      HeldByField(c.registry, m, f);
    }
  }

  lemma OneofDeclared(r: Registry, m: FullName, f: FieldDescriptor)
    requires Linked(r) && m in r.messages && f in r.messages[m].fields && f.oneof.Some?
    ensures f.oneof.value in r.messages[m].oneofs
  {
    var j :| 0 <= j < |r.messages[m].fields| && r.messages[m].fields[j] == f;
    assert MessageLinked(r, r.messages[m]);
  }

  predicate KnownOneof(r: Registry, o: OwnedOneof) {
    o.message in r.messages && o.descriptor in r.messages[o.message].oneofs
  }

  /** A record depends on a message only where a field of its own message holds that message. */
  lemma EdgeHeld(c: Context, messages: seq<FullName>, oneofs: seq<OwnedOneof>, variants: seq<WitVariant>,
                 a: FullName, b: FullName)
    requires Linked(c.registry) && oneofs == SortedOneofs(c.registry, messages)
    requires VariantsOk(c, oneofs) && variants == AllVariants(c, oneofs)
    requires RecordsOk(c, ByFullName(variants), NonEmpty(c.registry, messages))
    requires Edge(AllRecords(c, ByFullName(variants), NonEmpty(c.registry, messages)), a, b)
    requires forall m :: m in messages ==> m in c.registry.messages
    ensures HeldBy(c.registry, a, b)
  {
    var owners := NonEmpty(c.registry, messages);
    var records := AllRecords(c, ByFullName(variants), owners);
    var i :| 0 <= i < |records| && records[i].fullName == a && FieldsTarget(records[i].fields, b);
    var j :| 0 <= j < |records[i].fields| && b in records[i].fields[j].messageTargets;
    assert RecordOk(c, ByFullName(variants), owners[i]) && records[i] == RecordOf(c, ByFullName(variants), owners[i]);
    NonEmptyMember(c.registry, messages, owners[i]);
    var f := LeadingFields(c.registry, a)[j];
    LeadingFieldsFrom(c.registry, a, f);
    forall k | 0 <= k < |oneofs|
      ensures KnownOneof(c.registry, oneofs[k])
    {
      SortedOneofsMember(c.registry, messages, oneofs[k]);
    }
    EntryTargetHeld(c, oneofs, variants, a, f, b);
  }

  /** A circle of records is a circle of messages. */
  lemma CircleFound(c: Context, messages: seq<FullName>, oneofs: seq<OwnedOneof>, variants: seq<WitVariant>,
                    walk: seq<FullName>)
    requires Linked(c.registry) && oneofs == SortedOneofs(c.registry, messages)
    requires VariantsOk(c, oneofs) && variants == AllVariants(c, oneofs)
    requires RecordsOk(c, ByFullName(variants), NonEmpty(c.registry, messages))
    requires ClosedWalk(AllRecords(c, ByFullName(variants), NonEmpty(c.registry, messages)), walk)
    requires forall m :: m in messages ==> m in c.registry.messages
    ensures OnCircle(c.registry, walk[|walk| - 1]) && walk[|walk| - 1] in messages
  {
    var records := AllRecords(c, ByFullName(variants), NonEmpty(c.registry, messages));
    forall i, j | 0 <= i < j < |walk| && j == i + 1
      ensures HeldBy(c.registry, walk[i], walk[j])
    {
      EdgeHeld(c, messages, oneofs, variants, walk[i], walk[j]);
    }
    assert Circle(c.registry, walk, walk[|walk| - 1]);
    assert Edge(records, walk[0], walk[1]);
    var i :| 0 <= i < |records| && records[i].fullName == walk[0];
    NonEmptyMember(c.registry, messages, NonEmpty(c.registry, messages)[i]);
  }

  lemma CircleFault(c: Context, messages: seq<FullName>, m: FullName)
    requires m in messages && OnCircle(c.registry, m)
    ensures ConversionFault(c, messages, SchemaError(m, UnsupportedRecursiveMessage))
  {
    assert MessageFault(c, SortedOneofs(c.registry, messages), m, SchemaError(m, UnsupportedRecursiveMessage));
  }

  lemma RecordsFaultFound(c: Context, messages: seq<FullName>, emptyMembers: set<FullName>, e: SchemaError)
    requires forall m :: m in emptyMembers <==> IsEmptyMember(c.registry, SortedOneofs(c.registry, messages), m)
    requires exists m :: m in messages && RecordsError(c, emptyMembers, m, e)
    ensures ConversionFault(c, messages, e)
  {
    var m :| m in messages && RecordsError(c, emptyMembers, m, e);
    assert MessageFault(c, SortedOneofs(c.registry, messages), m, e);
  }

  method ConvertRecords(c: Context, messages: seq<FullName>, ghost oneofs: seq<OwnedOneof>, variants: seq<WitVariant>,
                        emptyOneofMembers: set<FullName>)
      returns (converted: Result<Body, BuildError>)
    requires forall j :: 0 <= j < |messages| ==> messages[j] in c.registry.messages && messages[j] in c.names
    requires forall m :: m in emptyOneofMembers <==> IsEmptyMember(c.registry, oneofs, m)
    requires forall m :: m in messages ==> VariantsFor(c.registry, ByFullName(variants), m)
    requires Linked(c.registry) && oneofs == SortedOneofs(c.registry, messages)
    requires VariantsOk(c, oneofs) && variants == AllVariants(c, oneofs)
    ensures converted.Ok? <==> RecordsConvert(c, messages, oneofs, ByFullName(variants))
    ensures converted.Ok? ==>
              converted.value == Body(AllRecords(c, ByFullName(variants), NonEmpty(c.registry, messages)), variants)
    ensures converted.Err? ==> converted.error.Unsupported? && ConversionFault(c, messages, converted.error.error)
  {
    var variantsByFullName := IndexVariants(variants);
    var records := BuildRecords(c, variantsByFullName, messages, emptyOneofMembers);
    assert EmptiesMembers(c.registry, messages, emptyOneofMembers)
      <==> forall m :: m in messages && IsEmptyMessage(c.registry, m) ==> IsEmptyMember(c.registry, oneofs, m);
    if records.Err? {
      RecordsFaultFound(c, messages, emptyOneofMembers, records.error.error);
      return Err(records.error);
    }
    var cycle := DetectMessageCycles(records.value);
    if cycle.Some? {
      CircleFound(c, messages, oneofs, variants, cycle.value);
      CircleFault(c, messages, cycle.value[|cycle.value| - 1]);
      return Err(Unsupported(SchemaError(cycle.value[|cycle.value| - 1], UnsupportedRecursiveMessage)));
    }
    return Ok(Body(records.value, variants));
  }

  // ----- the files -----

  function CheckFileConstructs(file: FileDescriptor): Option<SchemaError> {
    if file.hasServices then Some(SchemaError(file.package, UnsupportedService))
    else if file.hasExtensions then Some(SchemaError(file.package, UnsupportedExtension))
    else if file.enums != [] then Some(SchemaError(file.enums[0], UnsupportedEnum))
    else None
  }

  lemma FileFaultFound(file: FileDescriptor)
    ensures CheckFileConstructs(file).Some? ==> FileFault(file, CheckFileConstructs(file).value)
  {
  }

  /** Every path up to `n` leads to a supported file of the package. */
  ghost predicate FilesChecked(r: Registry, package: FullName, paths: seq<string>, n: nat)
    requires n <= |paths| && forall j :: 0 <= j < |paths| ==> paths[j] in r.files
  {
    forall j :: 0 <= j < n ==> r.files[paths[j]].package == package && FileOk(r.files[paths[j]])
  }

  ghost predicate DeclaredWithin(r: Registry, paths: seq<string>, n: nat, m: FullName)
    requires n <= |paths| && forall j :: 0 <= j < |paths| ==> paths[j] in r.files
  {
    exists j :: 0 <= j < n && m in r.files[paths[j]].messages
  }

  /** The messages of the files, all of which must belong to the package and hold supported constructs only. */
  method GatherMessages(r: Registry, package: FullName, paths: seq<string>)
      returns (gathered: Result<seq<FullName>, BuildError>)
    requires Linked(r) && forall j :: 0 <= j < |paths| ==> paths[j] in r.files
    ensures gathered.Ok? <==> FilesChecked(r, package, paths, |paths|)
    ensures gathered.Ok? ==> forall m :: m in gathered.value <==> DeclaredWithin(r, paths, |paths|, m)
    ensures gathered.Ok? ==> forall j :: 0 <= j < |gathered.value| ==> gathered.value[j] in r.messages
    ensures gathered.Err? && gathered.error.ForeignFile? ==>
              exists j :: 0 <= j < |paths| && r.files[paths[j]].package != package
    ensures gathered.Err? ==> gathered.error.Unsupported? || gathered.error.ForeignFile?
    ensures gathered.Err? && gathered.error.Unsupported? ==>
              exists p :: p in paths && p in r.files && FileFault(r.files[p], gathered.error.error)
  {
    var requestedMessages: seq<FullName> := [];
    for i := 0 to |paths|
      invariant FilesChecked(r, package, paths, i)
      invariant forall m :: m in requestedMessages <==> DeclaredWithin(r, paths, i, m)
      invariant forall j :: 0 <= j < |requestedMessages| ==> requestedMessages[j] in r.messages
    {
      var file := r.files[paths[i]];
      if file.package != package {
        return Err(ForeignFile(paths[i]));
      }
      var error := CheckFileConstructs(file);
      if error.Some? {
        FileFaultFound(file);
        assert paths[i] in paths;
        return Err(Unsupported(error.value));
      }
      requestedMessages := requestedMessages + file.messages;
    }
    return Ok(requestedMessages);
  }

  ghost predicate Contributing(r: Registry, messages: seq<FullName>, n: nat, path: string)
    requires n <= |messages| && forall j :: 0 <= j < |messages| ==> messages[j] in r.messages
  {
    exists j :: 0 <= j < n && r.messages[messages[j]].path == path
  }

  ghost predicate ContributionsOk(r: Registry, messages: seq<FullName>, checkedFiles: set<string>)
    requires forall j :: 0 <= j < |messages| ==> messages[j] in r.messages
  {
    forall j :: 0 <= j < |messages| && r.messages[messages[j]].path !in checkedFiles
                && r.messages[messages[j]].path in r.files ==>
      FileOk(r.files[r.messages[messages[j]].path])
  }

  /** The files of the messages that were not checked before, each once. */
  method PendingFiles(r: Registry, messages: seq<FullName>, checkedFiles: set<string>) returns (pending: seq<string>)
    requires forall j :: 0 <= j < |messages| ==> messages[j] in r.messages
    ensures forall path :: path in pending <==> Contributing(r, messages, |messages|, path) && path !in checkedFiles
  {
    pending := [];
    for i := 0 to |messages|
      invariant forall path :: path in pending <==> Contributing(r, messages, i, path) && path !in checkedFiles
    {
      var path := r.messages[messages[i]].path;
      if path !in checkedFiles && path !in pending {
        pending := pending + [path];
      }
    }
  }

  method CheckFiles(r: Registry, paths: seq<string>) returns (error: Option<SchemaError>)
    requires forall j :: 0 <= j < |paths| ==> paths[j] in r.files
    ensures error.None? <==> forall j :: 0 <= j < |paths| ==> FileOk(r.files[paths[j]])
    ensures error.Some? ==> exists p :: p in paths && p in r.files && FileFault(r.files[p], error.value)
  {
    for i := 0 to |paths|
      invariant forall j :: 0 <= j < i ==> FileOk(r.files[paths[j]])
    {
      error := CheckFileConstructs(r.files[paths[i]]);
      if error.Some? {
        FileFaultFound(r.files[paths[i]]);
        assert paths[i] in paths;
        return;
      }
    }
    error := None;
  }

  /** Checks them in the order of their paths. */
  method CheckContributingFiles(r: Registry, messages: seq<FullName>, checkedFiles: set<string>)
      returns (error: Option<SchemaError>)
    requires Linked(r) && forall j :: 0 <= j < |messages| ==> messages[j] in r.messages
    ensures error.None? <==> ContributionsOk(r, messages, checkedFiles)
    ensures error.Some? ==>
              exists p :: Contributing(r, messages, |messages|, p) && p in r.files && FileFault(r.files[p], error.value)
  {
    var pending := PendingFiles(r, messages, checkedFiles);
    PendingKnown(r, messages, checkedFiles, pending);
    SortedPaths(r, pending);
    PendingDecides(r, messages, checkedFiles, Sort(pending, Below));
    error := CheckFiles(r, Sort(pending, Below));
  }

  lemma PendingKnown(r: Registry, messages: seq<FullName>, checkedFiles: set<string>, pending: seq<string>)
    requires Linked(r) && forall j :: 0 <= j < |messages| ==> messages[j] in r.messages
    requires forall path :: path in pending <==> Contributing(r, messages, |messages|, path) && path !in checkedFiles
    ensures forall j :: 0 <= j < |pending| ==> pending[j] in r.files
  {
    forall j | 0 <= j < |pending|
      ensures pending[j] in r.files
    {
      assert pending[j] in pending;
      var k :| 0 <= k < |messages| && r.messages[messages[k]].path == pending[j];
      assert MessageLinked(r, r.messages[messages[k]]);
    }
  }

  lemma PendingDecides(r: Registry, messages: seq<FullName>, checkedFiles: set<string>, paths: seq<string>)
    requires forall j :: 0 <= j < |messages| ==> messages[j] in r.messages
    requires forall path :: path in paths <==> Contributing(r, messages, |messages|, path) && path !in checkedFiles
    requires forall j :: 0 <= j < |paths| ==> paths[j] in r.files
    ensures ContributionsOk(r, messages, checkedFiles) <==> forall j :: 0 <= j < |paths| ==> FileOk(r.files[paths[j]])
  {
    forall j | 0 <= j < |paths| && ContributionsOk(r, messages, checkedFiles)
      ensures FileOk(r.files[paths[j]])
    {
      assert paths[j] in paths;
      var k :| 0 <= k < |messages| && r.messages[messages[k]].path == paths[j];
    }
    if !ContributionsOk(r, messages, checkedFiles) {
      var k :| 0 <= k < |messages| && r.messages[messages[k]].path !in checkedFiles
        && r.messages[messages[k]].path in r.files
               && !FileOk(r.files[r.messages[messages[k]].path]);
      assert r.messages[messages[k]].path in paths;
    }
  }

  // ----- the schema -----

  /** `schema` is the schema of the one package all the files belong to. */
  ghost predicate IsBuilt(r: Registry, paths: seq<string>, schema: WitSchema) {
    && paths != []
    && (forall p :: p in paths && p in r.files ==> r.files[p].package == schema.protoPackage)
    && IsSchemaOf(r, schema.protoPackage, SetOf(paths), schema)
  }

  ghost predicate SamePackage(r: Registry, paths: seq<string>) {
    forall p, q :: p in paths && q in paths && p in r.files && q in r.files ==> r.files[p].package == r.files[q].package
  }

  /** The error names a fault of a package the files belong to. */
  ghost predicate FileSetFault(r: Registry, files: seq<string>, e: SchemaError) {
    exists p :: p in files && p in r.files && Fault(r, r.files[p].package, SetOf(files), e)
  }

  lemma RequestedFault(r: Registry, package: FullName, files: seq<string>, p: string, e: SchemaError)
    requires p in files && p in r.files && FileFault(r.files[p], e)
    ensures Fault(r, package, SetOf(files), e)
  {
    assert Concerned(r, SetOf(files), Needed(r, package, RequestedIn(r, SetOf(files))), p);
  }

  /** Builds the schema. It fails exactly when the files have none; files that belong to one package are never foreign
      to each other. */
  method BuildSchema(r: Registry, files: seq<string>) returns (built: Result<WitSchema, BuildError>)
    requires Linked(r) && forall j :: 0 <= j < |files| ==> files[j] in r.files
    ensures built.Ok? ==> IsBuilt(r, files, built.value)
    ensures built.Err? ==> forall schema :: !IsBuilt(r, files, schema)
    ensures built.Err? && files != [] && SamePackage(r, files) ==> built.error.Unsupported?
    ensures built.Err? && built.error.Unsupported? ==> FileSetFault(r, files, built.error.error)
    ensures built.Err? && !built.error.Unsupported? ==>
              if files == [] then built.error == NoFiles else built.error.ForeignFile? && !SamePackage(r, files)
  {
    if |files| == 0 {
      return Err(NoFiles);
    }
    var orderedFiles := Sort(files, Below);
    SortedPaths(r, files);
    var protoPackage := r.files[orderedFiles[0]].package;
    BuiltPackage(r, files, orderedFiles[0]);
    var id := ToPackageId(protoPackage);
    if id.None? {
      assert Fault(r, protoPackage, SetOf(files), SchemaError("", UnsupportedPackage));
      return Err(Unsupported(SchemaError("", UnsupportedPackage)));
    }
    var requestedMessages := GatherMessages(r, protoPackage, orderedFiles);
    if requestedMessages.Err? {
      NotGathered(r, files, orderedFiles);
      if requestedMessages.error.Unsupported? {
        var e := requestedMessages.error.error;
        ghost var p :| p in orderedFiles && p in r.files && FileFault(r.files[p], e);
        RequestedFault(r, protoPackage, files, p, e);
      }
      return Err(requestedMessages.error);
    }
    Gathered(r, protoPackage, files, orderedFiles, requestedMessages.value);
    assert SetOf(orderedFiles) == SetOf(files);
    var body := BuildBody(r, protoPackage, requestedMessages.value, SetOf(orderedFiles));
    if body.Err? {
      NoSchema(r, files, protoPackage);
      assert Fault(r, protoPackage, SetOf(files), body.error.error);
      return Err(body.error);
    }
    return Ok(WitSchema(id.value, id.value.OutputDirectory() + "/messages.wit", protoPackage,
                        body.value.records, body.value.variants));
  }

  lemma BuiltPackage(r: Registry, files: seq<string>, path: string)
    requires path in files && path in r.files
    ensures forall schema :: IsBuilt(r, files, schema) ==> schema.protoPackage == r.files[path].package
  {
  }

  lemma NoSchema(r: Registry, files: seq<string>, package: FullName)
    requires forall schema :: IsBuilt(r, files, schema) ==> schema.protoPackage == package
    requires !HasBody(r, package, RequestedIn(r, SetOf(files)), SetOf(files))
    ensures forall schema :: !IsBuilt(r, files, schema)
  {
  }

  ghost predicate HasBody(r: Registry, package: FullName, requested: set<FullName>, paths: set<string>) {
    exists body :: IsBody(r, package, requested, paths, body)
  }

  /** Collects what the messages need and checks the files it stands in. */
  method CollectChecked(r: Registry, package: FullName, requestedMessages: seq<FullName>, checkedFiles: set<string>)
      returns (collected: Result<Collection, SchemaError>)
    requires Linked(r) && forall j :: 0 <= j < |requestedMessages| ==> requestedMessages[j] in r.messages
    requires forall p :: p in checkedFiles && p in r.files ==> FileOk(r.files[p])
    ensures var needed := Needed(r, package, SetOf(requestedMessages));
            && (collected.Ok? <==> FilesOk(r, checkedFiles, needed) && Nameable(r, package, needed))
            && (collected.Ok? ==> Collects(collected.value, package, needed))
            && (collected.Err? ==> Objection(r, package, needed, collected.error)
                                   || FilesFault(r, checkedFiles, needed, collected.error))
  {
    ghost var needed := Needed(r, package, SetOf(requestedMessages));
    collected := CollectPackage(r, package, requestedMessages);
    if collected.Err? {
      return;
    }
    var definitions := collected.value.definitions;
    NeededExist(r, package, SetOf(requestedMessages), definitions);
    ContributionsAre(r, checkedFiles, needed, definitions);
    var error := CheckContributingFiles(r, definitions, checkedFiles);
    if error.Some? {
      ContributionFault(r, checkedFiles, needed, definitions, error.value);
      return Err(error.value);
    }
  }

  lemma ContributionFault(r: Registry, paths: set<string>, needed: set<FullName>, definitions: seq<FullName>,
                          e: SchemaError)
    requires forall m :: m in definitions <==> m in needed
    requires forall j :: 0 <= j < |definitions| ==> definitions[j] in r.messages
    requires exists p :: Contributing(r, definitions, |definitions|, p) && p in r.files && FileFault(r.files[p], e)
    ensures FilesFault(r, paths, needed, e)
  {
    var p :| Contributing(r, definitions, |definitions|, p) && p in r.files && FileFault(r.files[p], e);
    var j :| 0 <= j < |definitions| && r.messages[definitions[j]].path == p;
    assert definitions[j] in needed && Concerned(r, paths, needed, p);
  }

  /** What keeps the requested messages from having a body. */
  ghost predicate BodyFault(r: Registry, package: FullName, requested: set<FullName>, paths: set<string>,
                            e: SchemaError)
  {
    var needed := Needed(r, package, requested);
    || FilesFault(r, paths, needed, e) || Objection(r, package, needed, e)
    || ConversionFault(Context(r, NamesOf(package, needed)), Listed(needed), e)
  }

  method BuildBody(r: Registry, package: FullName, requestedMessages: seq<FullName>, checkedFiles: set<string>)
      returns (built: Result<Body, BuildError>)
    requires Linked(r) && forall j :: 0 <= j < |requestedMessages| ==> requestedMessages[j] in r.messages
    requires forall p :: p in checkedFiles && p in r.files ==> FileOk(r.files[p])
    ensures built.Ok? ==> IsBody(r, package, SetOf(requestedMessages), checkedFiles, built.value)
    ensures built.Err? ==> !HasBody(r, package, SetOf(requestedMessages), checkedFiles)
    ensures built.Err? ==> built.error.Unsupported?
                           && BodyFault(r, package, SetOf(requestedMessages), checkedFiles, built.error.error)
  {
    ghost var needed := Needed(r, package, SetOf(requestedMessages));
    var collected := CollectChecked(r, package, requestedMessages, checkedFiles);
    if collected.Err? {
      return Err(Unsupported(collected.error));
    }
    var definitions := collected.value.definitions;
    var c := Context(r, collected.value.namesByFullName);
    var messages := Sort(definitions, Below);
    NeededExist(r, package, SetOf(requestedMessages), definitions);
    ListedKnown(c, needed, definitions);
    BodyIs(c, package, SetOf(requestedMessages), checkedFiles, messages);
    built := ConvertMessages(c, messages, collected.value.namesByIdentifier);
  }

  lemma BodyIs(c: Context, package: FullName, requested: set<FullName>, checkedFiles: set<string>,
               messages: seq<FullName>)
    requires var needed := Needed(c.registry, package, requested);
             && c.names == NamesOf(package, needed) && messages == Listed(needed)
             && FilesOk(c.registry, checkedFiles, needed) && Nameable(c.registry, package, needed)
    ensures HasBody(c.registry, package, requested, checkedFiles) ==> Convertible(c, messages)
    ensures forall body: Body :: Converts(c, messages, body.records, body.variants) ==>
              IsBody(c.registry, package, requested, checkedFiles, body)
  {
  }

  /** Sorted paths are the same paths. */
  lemma SortedPaths(r: Registry, files: seq<string>)
    requires forall j :: 0 <= j < |files| ==> files[j] in r.files
    ensures forall p :: p in Sort(files, Below) <==> p in files
    ensures forall j :: 0 <= j < |Sort(files, Below)| ==> Sort(files, Below)[j] in r.files
    ensures |Sort(files, Below)| == |files|
  {
    var sorted := Sort(files, Below);
    forall p
      ensures p in sorted <==> p in files
    {
      SortMembers(files, Below, p);
    }
    forall j | 0 <= j < |sorted|
      ensures sorted[j] in r.files
    {
      assert sorted[j] in files;
    }
    assert |sorted| == |multiset(sorted)| == |multiset(files)|;
  }

  lemma NotGathered(r: Registry, files: seq<string>, ordered: seq<string>)
    requires forall p :: p in ordered <==> p in files
    requires ordered != [] && forall j :: 0 <= j < |ordered| ==> ordered[j] in r.files
    requires !FilesChecked(r, r.files[ordered[0]].package, ordered, |ordered|)
    ensures forall schema :: !IsBuilt(r, files, schema)
  {
    var j :| 0 <= j < |ordered|
             && !(r.files[ordered[j]].package == r.files[ordered[0]].package && FileOk(r.files[ordered[j]]));
    assert ordered[j] in files && ordered[0] in files;
  }

  lemma Gathered(r: Registry, package: FullName, files: seq<string>, ordered: seq<string>, messages: seq<FullName>)
    requires forall p :: p in ordered <==> p in files
    requires forall j :: 0 <= j < |ordered| ==> ordered[j] in r.files
    requires FilesChecked(r, package, ordered, |ordered|)
    requires forall m :: m in messages <==> DeclaredWithin(r, ordered, |ordered|, m)
    ensures SetOf(messages) == RequestedIn(r, SetOf(files))
    ensures forall p :: p in files && p in r.files ==> r.files[p].package == package && FileOk(r.files[p])
  {
  }

  lemma NeededExist(r: Registry, package: FullName, requested: set<FullName>, definitions: seq<FullName>)
    requires forall m :: m in definitions <==> m in Needed(r, package, requested)
    ensures forall j :: 0 <= j < |definitions| ==> definitions[j] in r.messages
  {
    forall j | 0 <= j < |definitions|
      ensures definitions[j] in r.messages
    {
      assert definitions[j] in definitions;
    }
  }

  lemma ContributionsAre(r: Registry, paths: set<string>, needed: set<FullName>, definitions: seq<FullName>)
    requires forall m :: m in definitions <==> m in needed
    requires forall j :: 0 <= j < |definitions| ==> definitions[j] in r.messages
    requires forall p :: p in paths && p in r.files ==> FileOk(r.files[p])
    ensures ContributionsOk(r, definitions, paths) <==> FilesOk(r, paths, needed)
  {
  }

  lemma ListedKnown(c: Context, needed: set<FullName>, definitions: seq<FullName>)
    requires forall m :: m in definitions <==> m in needed
    requires forall j :: 0 <= j < |definitions| ==> definitions[j] in c.registry.messages
    requires c.names.Keys == needed
    requires forall j, k :: 0 <= j < k < |definitions| ==> definitions[j] != definitions[k]
    ensures Sort(definitions, Below) == Listed(needed)
    ensures forall j :: 0 <= j < |Listed(needed)| ==>
              Listed(needed)[j] in c.registry.messages && Listed(needed)[j] in c.names
  {
    SortLists(definitions, needed);
    forall j | 0 <= j < |Listed(needed)|
      ensures Listed(needed)[j] in c.registry.messages && Listed(needed)[j] in c.names
    {
      ListedMember(needed, Listed(needed)[j]);
      var k :| 0 <= k < |definitions| && definitions[k] == Listed(needed)[j];
    }
  }
}
