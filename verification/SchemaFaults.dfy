/** What is wrong with the files of a package that have no schema, element by element. */
module SchemaFaults {
  import opened Prelude
  import opened PackageNames
  import opened Identifiers
  import opened Wit
  import opened Descriptors
  import opened Collect
  import opened Schema

  // ----- files -----

  ghost predicate FileFault(f: FileDescriptor, e: SchemaError) {
    match e.reason
    case UnsupportedService => f.hasServices && e.element == f.package
    case UnsupportedExtension => f.hasExtensions && e.element == f.package
    case UnsupportedEnum => f.enums != [] && e.element == f.enums[0]
    case _ => false
  }

  /** The file is requested, or a needed message stands in it. */
  ghost predicate Concerned(r: Registry, paths: set<string>, needed: set<FullName>, p: string) {
    p in r.files && (p in paths || exists m :: m in needed && m in r.messages && r.messages[m].path == p)
  }

  ghost predicate FilesFault(r: Registry, paths: set<string>, needed: set<FullName>, e: SchemaError) {
    exists p :: Concerned(r, paths, needed, p) && FileFault(r.files[p], e)
  }

  // ----- fields and members of oneofs -----

  /** The field has no type: it is a map, a group or of an enum, or holds a message that has no name. */
  predicate TypeFault(c: Context, f: FieldDescriptor, reason: Reason) {
    match reason
    case UnsupportedMap => f.isMap
    case UnsupportedMessageReference => f.kind == MessageKind && f.message !in c.names
    case UnsupportedEnum => f.kind == EnumKind
    case UnsupportedFieldKind => f.kind == GroupKind
    case _ => false
  }

  predicate HoldsEmpty(c: Context, f: FieldDescriptor) {
    f.kind == MessageKind && f.message in c.registry.messages && c.registry.messages[f.message].fields == []
  }

  /** A field that stands for itself. */
  predicate FieldFault(c: Context, f: FieldDescriptor, reason: Reason) {
    match reason
    case UnsupportedIdentifier => Normalized(f.name).None?
    case UnsupportedEmptyMessage => HoldsEmpty(c, f)
    case _ => TypeFault(c, f, reason)
  }

  /** A member of a oneof: only there may a message be empty. */
  predicate MemberFault(c: Context, f: FieldDescriptor, reason: Reason) {
    match reason
    case InvalidOneofShape => f.cardinality == Repeated
    case UnsupportedIdentifier => Normalized(f.name).None?
    case _ => !HoldsEmpty(c, f) && TypeFault(c, f, reason)
  }

  // ----- records -----

  /** The oneof the entry stands for, or else the field itself. */
  function Owner(f: FieldDescriptor): FullName {
    if Real(f) then f.oneof.value.fullName else f.fullName
  }

  predicate EntryFault(c: Context, f: FieldDescriptor, reason: Reason) {
    if Real(f) then reason == UnsupportedIdentifier && Normalized(f.oneof.value.name).None?
    else FieldFault(c, f, reason)
  }

  /** Two entries of the record of `m` have the same name; the later one is to blame. */
  ghost predicate EntriesCollide(c: Context, m: FullName, k: nat) {
    var entries := LeadingFields(c.registry, m);
    && k < |entries| && EntryName(entries[k]).Some?
    && exists j :: 0 <= j < k && EntryName(entries[j]) == EntryName(entries[k])
  }

  ghost predicate RecordFaultAt(c: Context, m: FullName, k: nat, e: SchemaError) {
    var entries := LeadingFields(c.registry, m);
    && k < |entries| && e.element == Owner(entries[k])
    && (EntryFault(c, entries[k], e.reason) || (e.reason == UnsupportedNameCollision && EntriesCollide(c, m, k)))
  }

  ghost predicate RecordFault(c: Context, m: FullName, e: SchemaError) {
    exists k :: RecordFaultAt(c, m, k, e)
  }

  // ----- oneofs -----

  ghost predicate CasesCollide(members: seq<FieldDescriptor>, k: nat)
    requires k < |members|
  {
    Normalized(members[k].name).Some?
    && exists j :: 0 <= j < k && Normalized(members[j].name) == Normalized(members[k].name)
  }

  ghost predicate CaseFaultAt(c: Context, members: seq<FieldDescriptor>, k: nat, e: SchemaError) {
    && k < |members| && e.element == members[k].fullName
    && (MemberFault(c, members[k], e.reason) || (e.reason == UnsupportedNameCollision && CasesCollide(members, k)))
  }

  ghost predicate VariantFault(c: Context, o: OwnedOneof, e: SchemaError) {
    var members := InNumberOrder(Members(c.registry, o));
    || (members == [] && e == SchemaError(o.descriptor.fullName, InvalidOneofShape))
    || exists k :: CaseFaultAt(c, members, k, e)
  }

  /** The oneof has no name, or the name of a message or of an earlier oneof. */
  ghost predicate OneofFault(c: Context, oneofs: seq<OwnedOneof>, k: nat, e: SchemaError)
    requires k < |oneofs|
  {
    var name := OneofName(c.names, oneofs[k]);
    && e.element == oneofs[k].descriptor.fullName
    && match e.reason
       case UnsupportedIdentifier => name.None?
       case UnsupportedNameCollision =>
         name.Some? && (name.value in c.names.Values || exists j :: 0 <= j < k && OneofName(c.names, oneofs[j]) == name)
       case _ => false
  }

  ghost predicate SomeOneofFault(c: Context, oneofs: seq<OwnedOneof>, e: SchemaError) {
    exists k :: 0 <= k < |oneofs| && OneofFault(c, oneofs, k, e)
  }

  ghost predicate SomeVariantFault(c: Context, oneofs: seq<OwnedOneof>, e: SchemaError) {
    exists k :: 0 <= k < |oneofs| && VariantFault(c, oneofs[k], e)
  }

  // ----- messages -----

  /** Some field of `m`, in a oneof or not, holds the message `t`. */
  predicate HeldBy(r: Registry, m: FullName, t: FullName) {
    m in r.messages
    && exists j :: 0 <= j < |r.messages[m].fields|
                   && r.messages[m].fields[j].kind == MessageKind && r.messages[m].fields[j].message == t
  }

  /** The messages hold each other in a circle that ends with `m`. */
  ghost predicate Circle(r: Registry, walk: seq<FullName>, m: FullName) {
    && |walk| >= 2 && walk[0] == walk[|walk| - 1] == m
    && forall i, j :: 0 <= i < j < |walk| && j == i + 1 ==> HeldBy(r, walk[i], walk[j])
  }

  ghost predicate OnCircle(r: Registry, m: FullName) { exists walk :: Circle(r, walk, m) }

  /** A message without fields that no oneof holds. */
  ghost predicate EmptyFault(c: Context, oneofs: seq<OwnedOneof>, m: FullName) {
    IsEmptyMessage(c.registry, m) && !IsEmptyMember(c.registry, oneofs, m)
  }

  ghost predicate MessageFault(c: Context, oneofs: seq<OwnedOneof>, m: FullName, e: SchemaError) {
    || RecordFault(c, m, e)
    || (e == SchemaError(m, UnsupportedEmptyMessage) && EmptyFault(c, oneofs, m))
    || (e == SchemaError(m, UnsupportedRecursiveMessage) && OnCircle(c.registry, m))
  }

  /** What keeps the messages, all of them named, from being converted. */
  ghost predicate ConversionFault(c: Context, messages: seq<FullName>, e: SchemaError) {
    var oneofs := SortedOneofs(c.registry, messages);
    || SomeOneofFault(c, oneofs, e) || SomeVariantFault(c, oneofs, e)
    || exists m :: m in messages && MessageFault(c, oneofs, m, e)
  }

  // ----- the package -----

  /** Something is wrong with the package, with a file, with the naming of a message, or with the content of one. */
  ghost predicate Fault(r: Registry, package: FullName, paths: set<string>, e: SchemaError) {
    var needed := Needed(r, package, RequestedIn(r, paths));
    || (e == SchemaError("", UnsupportedPackage) && IdOf(package).None?)
    || FilesFault(r, paths, needed, e)
    || Objection(r, package, needed, e)
    || ConversionFault(Context(r, NamesOf(package, needed)), Listed(needed), e)
  }
}
