/** The generator's passes over one package, each against what the schema is. */
module Build {
  import opened Prelude
  import opened PackageNames
  import opened Identifiers
  import opened Order
  import opened Wit
  import opened Descriptors
  import opened Collect
  import opened Schema
  import opened SchemaFaults

  /** An unsupported construct, or one of the errors a caller cannot cause through linked descriptors. */
  datatype BuildError =
    | Unsupported(error: SchemaError)
    | NoFiles
    | ForeignFile(path: string)
    | MissingVariant(oneof: FullName)

  // ----- variants -----

  /** The first `n` members are converted to `cases`, and `caseNames` holds their names. */
  ghost predicate CasesBuilt(c: Context, members: seq<FieldDescriptor>, n: nat, cases: seq<WitCase>,
                             caseNames: map<string, FullName>)
  {
    && |cases| == n <= |members|
    && (forall k :: 0 <= k < n ==> CaseOf(c, members[k]) == Some(cases[k]) && cases[k].name in caseNames)
    && (forall j, k :: 0 <= j < k < n ==> cases[j].name != cases[k].name)
    && (forall name :: name in caseNames ==> exists k :: 0 <= k < n && cases[k].name == name)
  }

  lemma CaseBuilt(c: Context, members: seq<FieldDescriptor>, n: nat, cases: seq<WitCase>,
                  caseNames: map<string, FullName>, next: WitCase)
    requires CasesBuilt(c, members, n, cases, caseNames) && n < |members|
    requires CaseOf(c, members[n]) == Some(next) && next.name !in caseNames
    ensures CasesBuilt(c, members, n + 1, cases + [next], caseNames[next.name := members[n].fullName])
  {
  }

  lemma CaseRefused(c: Context, members: seq<FieldDescriptor>, n: nat, cases: seq<WitCase>,
                    caseNames: map<string, FullName>)
    requires CasesBuilt(c, members, n, cases, caseNames) && n < |members|
    requires CaseOf(c, members[n]).None? || CaseOf(c, members[n]).value.name in caseNames
    ensures !CasesOk(c, members)
  {
  }

  /** A case that is refused is faulty, or collides with an earlier one. */
  lemma CaseFaultFound(c: Context, members: seq<FieldDescriptor>, n: nat, cases: seq<WitCase>,
                       caseNames: map<string, FullName>, e: SchemaError)
    requires CasesBuilt(c, members, n, cases, caseNames) && n < |members| && CaseError(c, members[n], caseNames, e)
    ensures CaseFaultAt(c, members, n, e)
  {
    if !MemberFault(c, members[n], e.reason) {
      var k :| 0 <= k < n && cases[k].name == Normalized(members[n].name).value;
      CaseNamed(c, members[k]);
    }
  }

  lemma CasesDone(c: Context, members: seq<FieldDescriptor>, cases: seq<WitCase>, caseNames: map<string, FullName>)
    requires CasesBuilt(c, members, |members|, cases, caseNames)
    ensures CasesOk(c, members) && cases == Cases(c, members)
  {
    forall k | 0 <= k < |members|
      ensures Normalized(members[k].name) == Some(cases[k].name)
    {
      CaseNamed(c, members[k]);
    }
  }

  lemma CaseNamed(c: Context, f: FieldDescriptor)
    requires CaseOf(c, f).Some?
    ensures Normalized(f.name) == Some(CaseOf(c, f).value.name)
  {
  }

  /** The error says what is wrong with the member, or that its name is taken. */
  predicate CaseError(c: Context, f: FieldDescriptor, caseNames: map<string, FullName>, e: SchemaError) {
    && e.element == f.fullName
    && (|| MemberFault(c, f, e.reason)
        || (e.reason == UnsupportedNameCollision && Normalized(f.name).Some? && Normalized(f.name).value in caseNames))
  }

  /** Converts one member, unless its name is taken. */
  method ConvertCase(c: Context, field: FieldDescriptor, caseNames: map<string, FullName>)
      returns (built: Result<WitCase, SchemaError>)
    ensures built.Ok? <==> CaseOf(c, field).Some? && CaseOf(c, field).value.name !in caseNames
    ensures built.Ok? ==> CaseOf(c, field) == Some(built.value)
    ensures built.Err? ==> CaseError(c, field, caseNames, built.error)
  {
    if field.cardinality == Repeated {
      return Err(SchemaError(field.fullName, InvalidOneofShape));
    }
    var name := NormalizeIdentifier(field.name);
    if name.None? {
      return Err(SchemaError(field.fullName, UnsupportedIdentifier));
    }
    if name.value in caseNames {
      return Err(SchemaError(field.fullName, UnsupportedNameCollision));
    }
    if HasEmptyTarget(c.registry, field) {
      return Ok(WitCase(name.value, None, None));
    }
    var base := BaseFieldType(c, field);
    if base.Err? {
      return Err(base.error);
    }
    return Ok(WitCase(name.value, Some(base.value.typeId), base.value.message));
  }

  method BuildVariant(c: Context, o: OwnedOneof, name: string) returns (built: Result<WitVariant, SchemaError>)
    requires OneofName(c.names, o) == Some(name)
    ensures built.Ok? <==> VariantOk(c, o)
    ensures built.Ok? ==> built.value == VariantOf(c, o)
    ensures built.Err? ==> VariantFault(c, o, built.error)
  {
    if Members(c.registry, o) == [] {
      return Err(SchemaError(o.descriptor.fullName, InvalidOneofShape));
    }
    var orderedFields := InNumberOrder(Members(c.registry, o));
    var cases: seq<WitCase> := [];
    var caseNames: map<string, FullName> := map[];
    for i := 0 to |orderedFields|
      invariant CasesBuilt(c, orderedFields, i, cases, caseNames)
    {
      var converted := ConvertCase(c, orderedFields[i], caseNames);
      if converted.Err? {
        CaseRefused(c, orderedFields, i, cases, caseNames);
        CaseFaultFound(c, orderedFields, i, cases, caseNames, converted.error);
        return Err(converted.error);
      }
      CaseBuilt(c, orderedFields, i, cases, caseNames, converted.value);
      caseNames := caseNames[converted.value.name := orderedFields[i].fullName];
      cases := cases + [converted.value];
    }
    CasesDone(c, orderedFields, cases, caseNames);
    return Ok(WitVariant(o.descriptor.fullName, name, cases));
  }

  // ----- records -----

  method BuildOneofField(o: OneofDescriptor, variant: WitVariant) returns (built: Result<WitField, SchemaError>)
    ensures built == OneofField(o, variant)
  {
    var name := NormalizeIdentifier(o.name);
    if name.None? {
      return Err(SchemaError(o.fullName, UnsupportedIdentifier));
    }
    var targets: seq<FullName> := [];
    for i := 0 to |variant.cases|
      invariant targets == CaseTargets(variant.cases[..i])
    {
      assert variant.cases[..i + 1][..i] == variant.cases[..i];
      if variant.cases[i].messageTarget.Some? {
        targets := targets + [variant.cases[i].messageTarget.value];
      }
    }
    assert variant.cases[..|variant.cases|] == variant.cases;
    return Ok(WitField(name.value, OptionOf(Named(variant.name)), targets));
  }

  /** The leaders are converted to `entries`, and `fieldNames` holds their names. */
  ghost predicate EntriesBuilt(c: Context, variants: Variants, leaders: seq<FieldDescriptor>, entries: seq<WitField>,
                               fieldNames: map<string, FullName>)
  {
    && |entries| == |leaders|
    && (forall k :: 0 <= k < |leaders| ==>
         EntryOf(c, variants, leaders[k]) == Some(entries[k]) && entries[k].name in fieldNames)
    && (forall j, k :: 0 <= j < k < |leaders| ==> entries[j].name != entries[k].name)
    && (forall name :: name in fieldNames ==> exists k :: 0 <= k < |leaders| && entries[k].name == name)
  }

  lemma EntryBuilt(c: Context, variants: Variants, leaders: seq<FieldDescriptor>, entries: seq<WitField>,
                   fieldNames: map<string, FullName>, f: FieldDescriptor, next: WitField, owner: FullName)
    requires EntriesBuilt(c, variants, leaders, entries, fieldNames)
    requires EntryOf(c, variants, f) == Some(next) && next.name !in fieldNames
    ensures EntriesBuilt(c, variants, leaders + [f], entries + [next], fieldNames[next.name := owner])
  {
    var n, after := |leaders|, fieldNames[next.name := owner];
    forall name | name in after
      ensures exists k :: 0 <= k < n + 1 && (entries + [next])[k].name == name
    {
      if name == next.name {
        assert (entries + [next])[n].name == name;
      } else {
        var k :| 0 <= k < n && entries[k].name == name;
        assert (entries + [next])[k].name == name;
      }
    }
  }

  lemma EntryNamed(c: Context, variants: Variants, f: FieldDescriptor)
    requires EntryOf(c, variants, f).Some?
    ensures EntryName(f) == Some(EntryOf(c, variants, f).value.name)
  {
  }

  lemma EntriesDone(c: Context, variants: Variants, leaders: seq<FieldDescriptor>, entries: seq<WitField>,
                    fieldNames: map<string, FullName>)
    requires EntriesBuilt(c, variants, leaders, entries, fieldNames)
    ensures EntriesOk(c, variants, leaders) && entries == Entries(c, variants, leaders)
  {
    forall k | 0 <= k < |leaders|
      ensures EntryName(leaders[k]) == Some(entries[k].name)
    {
      EntryNamed(c, variants, leaders[k]);
    }
  }

  /** The full names of the real oneofs among the first `n` fields. */
  ghost predicate Seen(seenOneofs: set<FullName>, fields: seq<FieldDescriptor>, n: nat)
    requires n <= |fields|
  {
    forall name :: name in seenOneofs <==>
      exists k :: 0 <= k < n && Real(fields[k]) && fields[k].oneof.value.fullName == name
  }

  lemma LeadersStep(fields: seq<FieldDescriptor>, i: nat)
    requires i < |fields|
    ensures Leaders(fields[..i + 1]) == Leaders(fields[..i]) + (if Leads(fields, i) then [fields[i]] else [])
  {
    assert fields[..i + 1][..i] == fields[..i];
  }

  /** The earlier leaders are a prefix of all leaders. */
  lemma {:induction false} LeadersPrefix(fields: seq<FieldDescriptor>, i: nat)
    requires i <= |fields|
    ensures Leaders(fields[..i]) <= Leaders(fields)
    decreases |fields| - i
  {
    if i == |fields| {
      assert fields[..i] == fields;
    } else {
      LeadersStep(fields, i);
      LeadersPrefix(fields, i + 1);
    }
  }

  /** The leader at `n` cannot be converted, or bears the name of an earlier one. */
  lemma EntryRefused(c: Context, variants: Variants, leaders: seq<FieldDescriptor>, n: nat, entries: seq<WitField>,
                     fieldNames: map<string, FullName>)
    requires n < |leaders| && EntriesBuilt(c, variants, leaders[..n], entries, fieldNames)
    requires EntryOf(c, variants, leaders[n]).None? || EntryOf(c, variants, leaders[n]).value.name in fieldNames
    ensures !EntriesOk(c, variants, leaders)
  {
    if EntryOf(c, variants, leaders[n]).Some? {
      var k :| 0 <= k < n && entries[k].name == EntryOf(c, variants, leaders[n]).value.name;
      assert leaders[k] == leaders[..n][k];
      EntryNamed(c, variants, leaders[n]);
      EntryNamed(c, variants, leaders[k]);
    }
  }

  /** Where a field leads, the leaders before it and the field itself begin the list of all leaders. */
  lemma LeaderAt(fields: seq<FieldDescriptor>, i: nat)
    requires i < |fields| && Leads(fields, i)
    ensures var n := |Leaders(fields[..i])|;
            n < |Leaders(fields)| && Leaders(fields)[..n] == Leaders(fields[..i]) && Leaders(fields)[n] == fields[i]
  {
    LeadersStep(fields, i);
    LeadersPrefix(fields, i + 1);
    var n := |Leaders(fields[..i])|;
    assert Leaders(fields[..i + 1])[n] == fields[i];
    assert Leaders(fields)[..n] == Leaders(fields[..i + 1])[..n] == Leaders(fields[..i]);
  }

  lemma LeaderRefused(c: Context, variants: Variants, fields: seq<FieldDescriptor>, i: nat, entries: seq<WitField>,
                      fieldNames: map<string, FullName>)
    requires i < |fields| && Leads(fields, i)
    requires EntriesBuilt(c, variants, Leaders(fields[..i]), entries, fieldNames)
    requires EntryOf(c, variants, fields[i]).None? || EntryOf(c, variants, fields[i]).value.name in fieldNames
    ensures !EntriesOk(c, variants, Leaders(fields))
  {
    LeaderAt(fields, i);
    EntryRefused(c, variants, Leaders(fields), |Leaders(fields[..i])|, entries, fieldNames);
  }

  /** The error says what is wrong with the entry, or that its name is taken. */
  predicate EntryError(c: Context, f: FieldDescriptor, fieldNames: map<string, FullName>, e: SchemaError) {
    && e.element == Owner(f)
    && (|| EntryFault(c, f, e.reason)
        || (e.reason == UnsupportedNameCollision && EntryName(f).Some? && EntryName(f).value in fieldNames))
  }

  /** The field has no entry with a free name, and the error says why. */
  ghost predicate Refuses(c: Context, variants: Variants, f: FieldDescriptor, fieldNames: map<string, FullName>,
                          error: BuildError)
  {
    && (EntryOf(c, variants, f).Some? ==> EntryOf(c, variants, f).value.name in fieldNames)
    && (if error.Unsupported? then EntryError(c, f, fieldNames, error.error)
        else error == MissingVariant(Owner(f)) && Real(f) && f.oneof.value.fullName !in variants)
  }

  /** Converts the field that stands first for itself or for its oneof, unless its name is taken. */
  method ConvertEntry(c: Context, variants: Variants, f: FieldDescriptor, fieldNames: map<string, FullName>)
      returns (built: Result<WitField, BuildError>)
    ensures built.Ok? ==> EntryOf(c, variants, f) == Some(built.value) && built.value.name !in fieldNames
    ensures built.Err? ==> Refuses(c, variants, f, fieldNames, built.error)
  {
    var converted;
    if Real(f) {
      if f.oneof.value.fullName !in variants {
        return Err(MissingVariant(f.oneof.value.fullName));
      }
      converted := BuildOneofField(f.oneof.value, variants[f.oneof.value.fullName]);
    } else {
      converted := BuildField(c, f);
    }
    if converted.Err? {
      return Err(Unsupported(converted.error));
    }
    if converted.value.name in fieldNames {
      return Err(Unsupported(SchemaError(Owner(f), UnsupportedNameCollision)));
    }
    return Ok(converted.value);
  }

  /** Every real oneof of the message has its variant. */
  ghost predicate VariantsFor(r: Registry, variants: Variants, m: FullName) {
    m in r.messages ==>
      forall j :: 0 <= j < |r.messages[m].fields| && Real(r.messages[m].fields[j]) ==>
        r.messages[m].fields[j].oneof.value.fullName in variants
  }

  /** The first `n` fields are dealt with. */
  ghost predicate RecordBuilt(c: Context, variants: Variants, fields: seq<FieldDescriptor>, n: nat,
                              seenOneofs: set<FullName>, entries: seq<WitField>, fieldNames: map<string, FullName>)
    requires n <= |fields|
  {
    Seen(seenOneofs, fields, n) && EntriesBuilt(c, variants, Leaders(fields[..n]), entries, fieldNames)
  }

  /** A member of a oneof seen before adds nothing. */
  lemma MemberPassed(c: Context, variants: Variants, fields: seq<FieldDescriptor>, n: nat, seenOneofs: set<FullName>,
                     entries: seq<WitField>, fieldNames: map<string, FullName>)
    requires n < |fields| && RecordBuilt(c, variants, fields, n, seenOneofs, entries, fieldNames)
    requires Real(fields[n]) && fields[n].oneof.value.fullName in seenOneofs
    ensures RecordBuilt(c, variants, fields, n + 1, seenOneofs, entries, fieldNames)
  {
    NoNewLeader(fields, n, seenOneofs);
  }

  lemma NoNewLeader(fields: seq<FieldDescriptor>, n: nat, seenOneofs: set<FullName>)
    requires n < |fields| && Seen(seenOneofs, fields, n)
    requires Real(fields[n]) && fields[n].oneof.value.fullName in seenOneofs
    ensures Seen(seenOneofs, fields, n + 1) && Leaders(fields[..n + 1]) == Leaders(fields[..n])
  {
    SeenStep(seenOneofs, fields, n);
    LeadersStep(fields, n);
    assert seenOneofs + {fields[n].oneof.value.fullName} == seenOneofs;
    assert Leaders(fields[..n]) + [] == Leaders(fields[..n]);
  }

  lemma LeaderAdded(c: Context, variants: Variants, fields: seq<FieldDescriptor>, n: nat, seenOneofs: set<FullName>,
                    entries: seq<WitField>, fieldNames: map<string, FullName>, next: WitField)
    requires n < |fields| && RecordBuilt(c, variants, fields, n, seenOneofs, entries, fieldNames)
    requires !(Real(fields[n]) && fields[n].oneof.value.fullName in seenOneofs)
    requires EntryOf(c, variants, fields[n]) == Some(next) && next.name !in fieldNames
    ensures RecordBuilt(c, variants, fields, n + 1, AlsoSeen(seenOneofs, fields[n]), entries + [next],
                        fieldNames[next.name := Owner(fields[n])])
  {
    SeenStep(seenOneofs, fields, n);
    LeadersStep(fields, n);
    EntryBuilt(c, variants, Leaders(fields[..n]), entries, fieldNames, fields[n], next, Owner(fields[n]));
  }

  lemma FieldRefused(c: Context, variants: Variants, fields: seq<FieldDescriptor>, n: nat, seenOneofs: set<FullName>,
                     entries: seq<WitField>, fieldNames: map<string, FullName>)
    requires n < |fields| && RecordBuilt(c, variants, fields, n, seenOneofs, entries, fieldNames)
    requires !(Real(fields[n]) && fields[n].oneof.value.fullName in seenOneofs)
    requires EntryOf(c, variants, fields[n]).None? || EntryOf(c, variants, fields[n]).value.name in fieldNames
    ensures !EntriesOk(c, variants, Leaders(fields))
  {
    SeenStep(seenOneofs, fields, n);
    LeaderRefused(c, variants, fields, n, entries, fieldNames);
  }

  function AlsoSeen(seenOneofs: set<FullName>, f: FieldDescriptor): set<FullName> {
    if Real(f) then seenOneofs + {f.oneof.value.fullName} else seenOneofs
  }

  /** An entry that is refused is faulty, or collides with an earlier one. */
  lemma FieldFaultFound(c: Context, variants: Variants, m: FullName, n: nat, seenOneofs: set<FullName>,
                        entries: seq<WitField>, fieldNames: map<string, FullName>, e: SchemaError)
    requires m in c.registry.messages
    requires var fields := InNumberOrder(c.registry.messages[m].fields);
             && n < |fields| && RecordBuilt(c, variants, fields, n, seenOneofs, entries, fieldNames)
             && !(Real(fields[n]) && fields[n].oneof.value.fullName in seenOneofs)
             && EntryError(c, fields[n], fieldNames, e)
    ensures RecordFault(c, m, e)
  {
    var fields := InNumberOrder(c.registry.messages[m].fields);
    var leaders, k := Leaders(fields), |Leaders(fields[..n])|;
    SeenStep(seenOneofs, fields, n);
    LeaderAt(fields, n);
    if !EntryFault(c, fields[n], e.reason) {
      var j :| 0 <= j < k && entries[j].name == EntryName(fields[n]).value;
      assert leaders[j] == leaders[..k][j];
      EntryNamed(c, variants, leaders[j]);
      assert EntryName(leaders[j]) == EntryName(leaders[k]);
    }
    assert RecordFaultAt(c, m, k, e);
  }

  /** What the failure of an entry says of its record. */
  lemma RecordFails(c: Context, variants: Variants, m: FullName, n: nat, seenOneofs: set<FullName>,
                    entries: seq<WitField>, fieldNames: map<string, FullName>, error: BuildError)
    requires m in c.registry.messages
    requires var fields := InNumberOrder(c.registry.messages[m].fields);
             && n < |fields| && RecordBuilt(c, variants, fields, n, seenOneofs, entries, fieldNames)
             && !(Real(fields[n]) && fields[n].oneof.value.fullName in seenOneofs)
             && Refuses(c, variants, fields[n], fieldNames, error)
    ensures !RecordOk(c, variants, m)
    ensures VariantsFor(c.registry, variants, m) ==> error.Unsupported?
    ensures error.Unsupported? ==> RecordFault(c, m, error.error)
  {
    FieldRefused(c, variants, InNumberOrder(c.registry.messages[m].fields), n, seenOneofs, entries, fieldNames);
    if error.Unsupported? {
      FieldFaultFound(c, variants, m, n, seenOneofs, entries, fieldNames, error.error);
    } else if VariantsFor(c.registry, variants, m) {
      VariantKnown(c.registry, variants, m, n);
    }
  }

  lemma RecordDone(c: Context, variants: Variants, m: FullName, entries: seq<WitField>,
                   fieldNames: map<string, FullName>)
    requires m in c.names && EntriesBuilt(c, variants, LeadingFields(c.registry, m), entries, fieldNames)
    ensures RecordOk(c, variants, m) && RecordOf(c, variants, m) == WitRecord(m, c.names[m], entries)
  {
    EntriesDone(c, variants, LeadingFields(c.registry, m), entries, fieldNames);
  }

  method BuildRecord(c: Context, variants: Variants, m: FullName) returns (built: Result<WitRecord, BuildError>)
    requires m in c.registry.messages && m in c.names
    ensures built.Ok? <==> RecordOk(c, variants, m)
    ensures built.Ok? ==> built.value == RecordOf(c, variants, m)
    ensures VariantsFor(c.registry, variants, m) && built.Err? ==> built.error.Unsupported?
    ensures built.Err? && built.error.Unsupported? ==> RecordFault(c, m, built.error.error)
  {
    var orderedFields := InNumberOrder(c.registry.messages[m].fields);
    var fields: seq<WitField> := [];
    var fieldNames: map<string, FullName> := map[];
    var seenOneofs: set<FullName> := {};
    for i := 0 to |orderedFields|
      invariant RecordBuilt(c, variants, orderedFields, i, seenOneofs, fields, fieldNames)
    {
      var field := orderedFields[i];
      if Real(field) && field.oneof.value.fullName in seenOneofs {
        MemberPassed(c, variants, orderedFields, i, seenOneofs, fields, fieldNames);
        continue;
      }
      var converted := ConvertEntry(c, variants, field, fieldNames);
      if converted.Err? {
        RecordFails(c, variants, m, i, seenOneofs, fields, fieldNames, converted.error);
        return Err(converted.error);
      }
      LeaderAdded(c, variants, orderedFields, i, seenOneofs, fields, fieldNames, converted.value);
      seenOneofs := AlsoSeen(seenOneofs, field);
      fieldNames := fieldNames[converted.value.name := Owner(field)];
      fields := fields + [converted.value];
    }
    assert orderedFields[..|orderedFields|] == orderedFields;
    RecordDone(c, variants, m, fields, fieldNames);
    return Ok(WitRecord(m, c.names[m], fields));
  }

  /** A field leads unless it belongs to a oneof seen before. */
  lemma SeenStep(seenOneofs: set<FullName>, fields: seq<FieldDescriptor>, i: nat)
    requires i < |fields| && Seen(seenOneofs, fields, i)
    ensures Leads(fields, i) <==> !(Real(fields[i]) && fields[i].oneof.value.fullName in seenOneofs)
    ensures Seen(if Real(fields[i]) then seenOneofs + {fields[i].oneof.value.fullName} else seenOneofs, fields, i + 1)
  {
  }

  lemma VariantKnown(r: Registry, variants: Variants, m: FullName, i: nat)
    requires m in r.messages && i < |InNumberOrder(r.messages[m].fields)| && VariantsFor(r, variants, m)
    ensures var f := InNumberOrder(r.messages[m].fields)[i]; Real(f) ==> f.oneof.value.fullName in variants
  {
    SortMembers(r.messages[m].fields, Precedes, InNumberOrder(r.messages[m].fields)[i]);
  }

  // ----- oneofs of all messages -----

  datatype OneofDefinition = OneofDefinition(owned: OwnedOneof, name: string)

  /** The first `n` oneofs are defined, and `taken` holds their names besides those of the messages. */
  ghost predicate OneofsDefined(names: map<FullName, string>, oneofs: seq<OwnedOneof>, n: nat,
                                defined: seq<OneofDefinition>, taken: set<string>)
  {
    && |defined| == n <= |oneofs|
    && (forall k :: 0 <= k < n ==>
         defined[k].owned == oneofs[k] && OneofName(names, oneofs[k]) == Some(defined[k].name))
    && (forall k :: 0 <= k < n ==> defined[k].name !in names.Values)
    && (forall j, k :: 0 <= j < k < n ==> defined[j].name != defined[k].name)
    && (forall id :: id in taken <==> id in names.Values || exists k :: 0 <= k < n && defined[k].name == id)
  }

  lemma OneofDefined(names: map<FullName, string>, oneofs: seq<OwnedOneof>, n: nat, defined: seq<OneofDefinition>,
                     taken: set<string>, name: string)
    requires OneofsDefined(names, oneofs, n, defined, taken) && n < |oneofs|
    requires OneofName(names, oneofs[n]) == Some(name) && name !in taken
    ensures OneofsDefined(names, oneofs, n + 1, defined + [OneofDefinition(oneofs[n], name)], taken + {name})
  {
  }

  lemma OneofRefused(names: map<FullName, string>, oneofs: seq<OwnedOneof>, n: nat, defined: seq<OneofDefinition>,
                     taken: set<string>)
    requires OneofsDefined(names, oneofs, n, defined, taken) && n < |oneofs|
    requires OneofName(names, oneofs[n]).None? || OneofName(names, oneofs[n]).value in taken
    ensures !OneofsNamed(names, oneofs)
  {
  }

  lemma OneofFaultFound(c: Context, oneofs: seq<OwnedOneof>, n: nat, defined: seq<OneofDefinition>, taken: set<string>,
                        e: SchemaError)
    requires OneofsDefined(c.names, oneofs, n, defined, taken) && n < |oneofs|
    requires e.element == oneofs[n].descriptor.fullName
    requires var name := OneofName(c.names, oneofs[n]);
             || (e.reason == UnsupportedIdentifier && name.None?)
             || (e.reason == UnsupportedNameCollision && name.Some? && name.value in taken)
    ensures SomeOneofFault(c, oneofs, e)
  {
    assert OneofFault(c, oneofs, n, e);
  }

  lemma OneofsDone(names: map<FullName, string>, oneofs: seq<OwnedOneof>, defined: seq<OneofDefinition>,
                   taken: set<string>)
    requires OneofsDefined(names, oneofs, |oneofs|, defined, taken)
    ensures OneofsNamed(names, oneofs)
  {
  }

  method CollectRealOneofs(r: Registry, messages: seq<FullName>) returns (oneofs: seq<OwnedOneof>)
    requires forall j :: 0 <= j < |messages| ==> messages[j] in r.messages
    ensures oneofs == RealOneofs(r, messages)
  {
    oneofs := [];
    for i := 0 to |messages|
      invariant oneofs == RealOneofs(r, messages[..i])
    {
      assert messages[..i + 1][..i] == messages[..i];
      var declared := r.messages[messages[i]].oneofs;
      for index := 0 to |declared|
        invariant oneofs == RealOneofs(r, messages[..i]) + RealOf(messages[i], declared[..index])
      {
        assert declared[..index + 1][..index] == declared[..index];
        if !declared[index].synthetic {
          oneofs := oneofs + [OwnedOneof(messages[i], declared[index])];
        }
      }
      assert declared[..|declared|] == declared;
    }
    assert messages[..|messages|] == messages;
  }

  method CollectOneofDefinitions(c: Context, messages: seq<FullName>, namesByIdentifier: map<string, FullName>)
      returns (collected: Result<seq<OneofDefinition>, SchemaError>)
    requires forall j :: 0 <= j < |messages| ==> messages[j] in c.registry.messages
    requires namesByIdentifier.Keys == c.names.Values
    ensures collected.Ok? <==> OneofsNamed(c.names, SortedOneofs(c.registry, messages))
    ensures collected.Ok? ==> Defines(c, SortedOneofs(c.registry, messages), collected.value)
    ensures collected.Err? ==> SomeOneofFault(c, SortedOneofs(c.registry, messages), collected.error)
  {
    var unordered := CollectRealOneofs(c.registry, messages);
    var oneofs := Sort(unordered, OneofBelow);
    var taken := namesByIdentifier;
    var result: seq<OneofDefinition> := [];
    for i := 0 to |oneofs|
      invariant OneofsDefined(c.names, oneofs, i, result, taken.Keys)
    {
      var oneof := oneofs[i];
      var messageName := TrimPercent(if oneof.message in c.names then c.names[oneof.message] else "");
      var name := NormalizeIdentifier(messageName + "." + oneof.descriptor.name);
      if name.None? {
        OneofRefused(c.names, oneofs, i, result, taken.Keys);
        OneofFaultFound(c, oneofs, i, result, taken.Keys,
                        SchemaError(oneof.descriptor.fullName, UnsupportedIdentifier));
        return Err(SchemaError(oneof.descriptor.fullName, UnsupportedIdentifier));
      }
      if name.value in taken {
        OneofRefused(c.names, oneofs, i, result, taken.Keys);
        OneofFaultFound(c, oneofs, i, result, taken.Keys,
                        SchemaError(oneof.descriptor.fullName, UnsupportedNameCollision));
        return Err(SchemaError(oneof.descriptor.fullName, UnsupportedNameCollision));
      }
      OneofDefined(c.names, oneofs, i, result, taken.Keys, name.value);
      assert taken[name.value := oneof.descriptor.fullName].Keys == taken.Keys + {name.value};
      taken := taken[name.value := oneof.descriptor.fullName];
      result := result + [OneofDefinition(oneof, name.value)];
    }
    OneofsDone(c.names, oneofs, result, taken.Keys);
    return Ok(result);
  }

  /** One definition per oneof, with its name. */
  ghost predicate Defines(c: Context, oneofs: seq<OwnedOneof>, definitions: seq<OneofDefinition>) {
    && |definitions| == |oneofs|
    && forall k :: 0 <= k < |oneofs| ==>
         definitions[k].owned == oneofs[k] && OneofName(c.names, oneofs[k]) == Some(definitions[k].name)
  }

  method BuildVariants(c: Context, ghost oneofs: seq<OwnedOneof>, definitions: seq<OneofDefinition>)
      returns (built: Result<seq<WitVariant>, SchemaError>)
    requires Defines(c, oneofs, definitions)
    ensures built.Ok? <==> VariantsOk(c, oneofs)
    ensures built.Ok? ==> built.value == AllVariants(c, oneofs)
    ensures built.Err? ==> SomeVariantFault(c, oneofs, built.error)
  {
    var variants: seq<WitVariant> := [];
    for i := 0 to |definitions|
      invariant |variants| == i
      invariant forall k :: 0 <= k < i ==> VariantOk(c, oneofs[k]) && variants[k] == VariantOf(c, oneofs[k])
    {
      var variant := BuildVariant(c, definitions[i].owned, definitions[i].name);
      if variant.Err? {
        return Err(variant.error);
      }
      variants := variants + [variant.value];
    }
    assert variants == AllVariants(c, oneofs);
    return Ok(variants);
  }

  /** `variantsByFullName` */
  method IndexVariants(variants: seq<WitVariant>) returns (variantsByFullName: Variants)
    ensures variantsByFullName == ByFullName(variants)
  {
    variantsByFullName := map[];
    for i := 0 to |variants|
      invariant variantsByFullName == ByFullName(variants[..i])
    {
      assert variants[..i + 1][..i] == variants[..i];
      variantsByFullName := variantsByFullName[variants[i].fullName := variants[i]];
    }
    assert variants[..|variants|] == variants;
  }

  /** Some member among the first `n` is the empty message `m`. */
  ghost predicate EmptyMemberWithin(r: Registry, members: seq<FieldDescriptor>, n: nat, m: FullName)
    requires n <= |members|
  {
    exists j :: 0 <= j < n && HasEmptyTarget(r, members[j]) && members[j].message == m
  }

  ghost predicate EmptyMemberAmong(r: Registry, oneofs: seq<OwnedOneof>, n: nat, m: FullName)
    requires n <= |oneofs|
  {
    exists k :: 0 <= k < n && EmptyMemberWithin(r, Members(r, oneofs[k]), |Members(r, oneofs[k])|, m)
  }

  method EmptyMemberNames(r: Registry, fields: seq<FieldDescriptor>) returns (names: set<FullName>)
    ensures forall m :: m in names <==> EmptyMemberWithin(r, fields, |fields|, m)
  {
    names := {};
    for index := 0 to |fields|
      invariant forall m :: m in names <==> EmptyMemberWithin(r, fields, index, m)
    {
      if HasEmptyTarget(r, fields[index]) {
        names := names + {fields[index].message};
      }
    }
  }

  ghost predicate EmptyMembers(r: Registry, oneofs: seq<OwnedOneof>, n: nat, names: set<FullName>)
    requires n <= |oneofs|
  {
    forall m :: m in names <==> EmptyMemberAmong(r, oneofs, n, m)
  }

  lemma OneOneofMore(r: Registry, oneofs: seq<OwnedOneof>, n: nat, names: set<FullName>, found: set<FullName>)
    requires n < |oneofs| && EmptyMembers(r, oneofs, n, names)
    requires var members := Members(r, oneofs[n]);
             forall m :: m in found <==> EmptyMemberWithin(r, members, |members|, m)
    ensures EmptyMembers(r, oneofs, n + 1, names + found)
  {
  }

  method EmptyOneofMemberNames(c: Context, ghost oneofs: seq<OwnedOneof>, definitions: seq<OneofDefinition>)
      returns (names: set<FullName>)
    requires Defines(c, oneofs, definitions)
    ensures forall m :: m in names <==> IsEmptyMember(c.registry, oneofs, m)
  {
    names := {};
    for i := 0 to |definitions|
      invariant EmptyMembers(c.registry, oneofs, i, names)
    {
      assert definitions[i].owned == oneofs[i];
      var found := EmptyMemberNames(c.registry, Members(c.registry, definitions[i].owned));
      OneOneofMore(c.registry, oneofs, i, names, found);
      names := names + found;
    }
  }

  // ----- records of all messages -----

  lemma NonEmptyStep(r: Registry, messages: seq<FullName>, i: nat)
    requires i < |messages|
    ensures NonEmpty(r, messages[..i + 1])
         == NonEmpty(r, messages[..i]) + (if IsEmptyMessage(r, messages[i]) then [] else [messages[i]])
  {
    assert messages[..i + 1][..i] == messages[..i];
  }

  lemma {:induction false} NonEmptyMember(r: Registry, messages: seq<FullName>, m: FullName)
    ensures m in NonEmpty(r, messages) <==> m in messages && !IsEmptyMessage(r, m)
  {
    if messages != [] {
      var n := |messages| - 1;
      NonEmptyMember(r, messages[..n], m);
      assert messages == messages[..n] + [messages[n]];
    }
  }

  lemma RecordRefused(c: Context, variants: Variants, messages: seq<FullName>, m: FullName)
    requires m in messages && !IsEmptyMessage(c.registry, m) && !RecordOk(c, variants, m)
    ensures !RecordsOk(c, variants, NonEmpty(c.registry, messages))
  {
    NonEmptyMember(c.registry, messages, m);
  }

  ghost predicate EmptiesMembers(r: Registry, messages: seq<FullName>, emptyMembers: set<FullName>) {
    forall m :: m in messages && IsEmptyMessage(r, m) ==> m in emptyMembers
  }

  /** The first `n` messages are dealt with. */
  ghost predicate RecordsBuilt(c: Context, variants: Variants, messages: seq<FullName>, emptyMembers: set<FullName>,
                               n: nat, records: seq<WitRecord>)
    requires n <= |messages|
  {
    && (forall k :: 0 <= k < n && IsEmptyMessage(c.registry, messages[k]) ==> messages[k] in emptyMembers)
    && RecordsOk(c, variants, NonEmpty(c.registry, messages[..n]))
    && records == AllRecords(c, variants, NonEmpty(c.registry, messages[..n]))
  }

  lemma RecordAdded(c: Context, variants: Variants, messages: seq<FullName>, emptyMembers: set<FullName>, n: nat,
                    records: seq<WitRecord>)
    requires n < |messages| && RecordsBuilt(c, variants, messages, emptyMembers, n, records)
    ensures IsEmptyMessage(c.registry, messages[n]) && messages[n] in emptyMembers ==>
              RecordsBuilt(c, variants, messages, emptyMembers, n + 1, records)
    ensures !IsEmptyMessage(c.registry, messages[n]) && RecordOk(c, variants, messages[n]) ==>
              RecordsBuilt(c, variants, messages, emptyMembers, n + 1, records + [RecordOf(c, variants, messages[n])])
  {
    NonEmptyStep(c.registry, messages, n);
  }

  ghost predicate RecordsError(c: Context, emptyMembers: set<FullName>, m: FullName, e: SchemaError) {
    || RecordFault(c, m, e)
    || (e == SchemaError(m, UnsupportedEmptyMessage) && IsEmptyMessage(c.registry, m) && m !in emptyMembers)
  }

  method BuildRecords(c: Context, variants: Variants, messages: seq<FullName>, emptyMembers: set<FullName>)
      returns (built: Result<seq<WitRecord>, BuildError>)
    requires forall j :: 0 <= j < |messages| ==> messages[j] in c.registry.messages && messages[j] in c.names
    ensures built.Ok? <==> EmptiesMembers(c.registry, messages, emptyMembers)
                           && RecordsOk(c, variants, NonEmpty(c.registry, messages))
    ensures built.Ok? ==> built.value == AllRecords(c, variants, NonEmpty(c.registry, messages))
    ensures (forall m :: m in messages ==> VariantsFor(c.registry, variants, m)) && built.Err? ==>
              built.error.Unsupported?
    ensures built.Err? && built.error.Unsupported? ==>
              exists m :: m in messages && RecordsError(c, emptyMembers, m, built.error.error)
  {
    var records: seq<WitRecord> := [];
    for i := 0 to |messages|
      invariant RecordsBuilt(c, variants, messages, emptyMembers, i, records)
    {
      RecordAdded(c, variants, messages, emptyMembers, i, records);
      if IsEmptyMessage(c.registry, messages[i]) {
        if messages[i] in emptyMembers {
          continue;
        }
        assert RecordsError(c, emptyMembers, messages[i], SchemaError(messages[i], UnsupportedEmptyMessage));
        return Err(Unsupported(SchemaError(messages[i], UnsupportedEmptyMessage)));
      }
      var record := BuildRecord(c, variants, messages[i]);
      if record.Err? {
        RecordRefused(c, variants, messages, messages[i]);
        return Err(record.error);
      }
      records := records + [record.value];
    }
    assert messages[..|messages|] == messages;
    return Ok(records);
  }
}
