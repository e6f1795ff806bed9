/** What schema a package has: every record, variant, field and case, and when there is a schema at all. */
module Schema {
  import opened Prelude
  import opened PackageNames
  import opened Identifiers
  import opened Order
  import opened Wit
  import opened Descriptors
  import opened Collect
  import opened Cycles

  datatype WitSchema = WitSchema(
    packageId: PackageId,
    path: string,
    protoPackage: FullName,
    records: seq<WitRecord>,
    variants: seq<WitVariant>)

  /** What the conversion of a field looks up. */
  datatype Context = Context(registry: Registry, names: map<FullName, string>)

  // ----- types of fields -----

  predicate IsEmptyMessage(r: Registry, m: FullName) {
    m in r.messages && r.messages[m].fields == []
  }

  predicate HasEmptyTarget(r: Registry, f: FieldDescriptor) {
    f.kind == MessageKind && IsEmptyMessage(r, f.message)
  }

  /** A type and the message it refers to, if any. */
  datatype Target = Target(typeId: WitType, message: Option<FullName>)

  function ScalarType(f: FieldDescriptor): Result<WitType, SchemaError> {
    match f.kind
    case BoolKind => Ok(Scalar("bool"))
    case StringKind => Ok(Scalar("string"))
    case BytesKind => Ok(Scalar("list<u8>"))
    case FloatKind => Ok(Scalar("f32"))
    case DoubleKind => Ok(Scalar("f64"))
    case Int32Kind | Sint32Kind | Sfixed32Kind => Ok(Scalar("s32"))
    case Uint32Kind | Fixed32Kind => Ok(Scalar("u32"))
    case Int64Kind | Sint64Kind | Sfixed64Kind => Ok(Scalar("s64"))
    case Uint64Kind | Fixed64Kind => Ok(Scalar("u64"))
    case EnumKind => Err(SchemaError(f.fullName, UnsupportedEnum))
    case _ => Err(SchemaError(f.fullName, UnsupportedFieldKind))
  }

  function BaseFieldType(c: Context, f: FieldDescriptor): Result<Target, SchemaError> {
    if f.isMap then Err(SchemaError(f.fullName, UnsupportedMap))
    else if f.kind == MessageKind then
      if f.message in c.names then Ok(Target(Named(c.names[f.message]), Some(f.message)))
      else Err(SchemaError(f.fullName, UnsupportedMessageReference))
    else
      var scalar := ScalarType(f);
      if scalar.Err? then Err(scalar.error) else Ok(Target(scalar.value, None))
  }

  function Wrapped(f: FieldDescriptor, t: WitType): WitType {
    if f.cardinality == Repeated then ListOf(t)
    else if f.hasPresence && f.cardinality != Required then OptionOf(t)
    else t
  }

  function BuildField(c: Context, f: FieldDescriptor): Result<WitField, SchemaError> {
    if f.isMap then Err(SchemaError(f.fullName, UnsupportedMap))
    else
      var name := Normalized(f.name);
      if name.None? then Err(SchemaError(f.fullName, UnsupportedIdentifier))
      else if HasEmptyTarget(c.registry, f) then Err(SchemaError(f.fullName, UnsupportedEmptyMessage))
      else
        var base := BaseFieldType(c, f);
        if base.Err? then Err(base.error)
        else Ok(WitField(name.value, Wrapped(f, base.value.typeId),
                         if base.value.message.Some? then [base.value.message.value] else []))
  }

  // ----- variants -----

  /** The field belongs to a oneof that was declared, not made up for an optional field. */
  predicate Real(f: FieldDescriptor) { f.oneof.Some? && !f.oneof.value.synthetic }

  function Precedes(f: FieldDescriptor, g: FieldDescriptor): bool {
    f.number < g.number || (f.number == g.number && Below(f.fullName, g.fullName))
  }

  function InNumberOrder(fields: seq<FieldDescriptor>): seq<FieldDescriptor> { Sort(fields, Precedes) }

  /** A real oneof of a message. */
  datatype OwnedOneof = OwnedOneof(message: FullName, descriptor: OneofDescriptor)

  function MembersOf(fields: seq<FieldDescriptor>, o: OneofDescriptor): seq<FieldDescriptor> {
    if fields == [] then []
    else
      var last := fields[|fields| - 1];
      MembersOf(fields[..|fields| - 1], o) + (if last.oneof == Some(o) then [last] else [])
  }

  function Members(r: Registry, o: OwnedOneof): seq<FieldDescriptor> {
    if o.message in r.messages then MembersOf(r.messages[o.message].fields, o.descriptor) else []
  }

  /** The case of a oneof member: a bare case for an empty message. */
  function CaseOf(c: Context, f: FieldDescriptor): Option<WitCase> {
    var name := Normalized(f.name);
    if f.cardinality == Repeated || name.None? then None
    else if HasEmptyTarget(c.registry, f) then Some(WitCase(name.value, None, None))
    else
      var base := BaseFieldType(c, f);
      if base.Err? then None else Some(WitCase(name.value, Some(base.value.typeId), base.value.message))
  }

  predicate CasesOk(c: Context, members: seq<FieldDescriptor>) {
    && (forall k :: 0 <= k < |members| ==> CaseOf(c, members[k]).Some?)
    && (forall j, k :: 0 <= j < k < |members| ==> Normalized(members[j].name) != Normalized(members[k].name))
  }

  function Cases(c: Context, members: seq<FieldDescriptor>): seq<WitCase>
    requires CasesOk(c, members)
  {
    seq(|members|, k requires 0 <= k < |members| => CaseOf(c, members[k]).value)
  }

  predicate VariantOk(c: Context, o: OwnedOneof) {
    Members(c.registry, o) != [] && CasesOk(c, InNumberOrder(Members(c.registry, o)))
  }

  function OneofName(names: map<FullName, string>, o: OwnedOneof): Option<string> {
    Normalized(TrimPercent(if o.message in names then names[o.message] else "") + "." + o.descriptor.name)
  }

  function VariantOf(c: Context, o: OwnedOneof): WitVariant
    requires VariantOk(c, o)
  {
    WitVariant(o.descriptor.fullName, OneofName(c.names, o).GetOr(""), Cases(c, InNumberOrder(Members(c.registry, o))))
  }

  // ----- records -----

  function CaseTargets(cases: seq<WitCase>): seq<FullName> {
    if cases == [] then []
    else
      var last := cases[|cases| - 1];
      CaseTargets(cases[..|cases| - 1]) + (if last.messageTarget.Some? then [last.messageTarget.value] else [])
  }

  function OneofField(o: OneofDescriptor, v: WitVariant): Result<WitField, SchemaError> {
    var name := Normalized(o.name);
    if name.None? then Err(SchemaError(o.fullName, UnsupportedIdentifier))
    else Ok(WitField(name.value, OptionOf(Named(v.name)), CaseTargets(v.cases)))
  }

  /** The member at `j` stands for itself, or is the first listed of its real oneof. */
  predicate Leads(s: seq<FieldDescriptor>, j: nat)
    requires j < |s|
  {
    Real(s[j]) ==> forall k :: 0 <= k < j && Real(s[k]) ==> s[k].oneof.value.fullName != s[j].oneof.value.fullName
  }

  function Leaders(s: seq<FieldDescriptor>): seq<FieldDescriptor> {
    if s == [] then []
    else Leaders(s[..|s| - 1]) + (if Leads(s, |s| - 1) then [s[|s| - 1]] else [])
  }

  type Variants = map<FullName, WitVariant>

  function EntryOf(c: Context, variants: Variants, f: FieldDescriptor): Option<WitField> {
    if Real(f) && f.oneof.value.fullName !in variants then None
    else
      var entry := if Real(f) then OneofField(f.oneof.value, variants[f.oneof.value.fullName]) else BuildField(c, f);
      if entry.Ok? then Some(entry.value) else None
  }

  function EntryName(f: FieldDescriptor): Option<string> {
    Normalized(if Real(f) then f.oneof.value.name else f.name)
  }

  predicate EntriesOk(c: Context, variants: Variants, leaders: seq<FieldDescriptor>) {
    && (forall k :: 0 <= k < |leaders| ==> EntryOf(c, variants, leaders[k]).Some?)
    && (forall j, k :: 0 <= j < k < |leaders| ==> EntryName(leaders[j]) != EntryName(leaders[k]))
  }

  function Entries(c: Context, variants: Variants, leaders: seq<FieldDescriptor>): seq<WitField>
    requires EntriesOk(c, variants, leaders)
  {
    seq(|leaders|, k requires 0 <= k < |leaders| => EntryOf(c, variants, leaders[k]).value)
  }

  function LeadingFields(r: Registry, m: FullName): seq<FieldDescriptor> {
    if m in r.messages then Leaders(InNumberOrder(r.messages[m].fields)) else []
  }

  predicate RecordOk(c: Context, variants: Variants, m: FullName) {
    EntriesOk(c, variants, LeadingFields(c.registry, m))
  }

  function RecordOf(c: Context, variants: Variants, m: FullName): WitRecord
    requires RecordOk(c, variants, m)
  {
    WitRecord(m, if m in c.names then c.names[m] else "", Entries(c, variants, LeadingFields(c.registry, m)))
  }

  // ----- the whole schema -----

  /** The elements of a set in order. */
  ghost function Listed(s: set<FullName>): (l: seq<FullName>)
    ensures multiset(l) == multiset(s)
  {
    if s == {} then []
    else
      var m :| m in s;
      assert s == (s - {m}) + {m};
      Insert(m, Listed(s - {m}), Below)
  }

  lemma ListedMember(s: set<FullName>, m: FullName)
    ensures m in Listed(s) <==> m in s
  {
    assert m in Listed(s) <==> m in multiset(Listed(s));
  }

  lemma {:induction false} ListedSorted(s: set<FullName>)
    ensures SortedBy(Listed(s), Below)
  {
    if s != {} {
      var m :| m in s && Listed(s) == Insert(m, Listed(s - {m}), Below);
      ListedSorted(s - {m});
      BelowOrders([m] + Listed(s - {m}));
      InsertSorted(m, Listed(s - {m}), Below);
    }
  }

  /** Sorting the elements of a set, each taken once, lists them. */
  lemma SortLists(l: seq<FullName>, s: set<FullName>)
    requires forall m :: m in l <==> m in s
    requires forall j, k :: 0 <= j < k < |l| ==> l[j] != l[k]
    ensures Sort(l, Below) == Listed(s)
  {
    DistinctMultiset(l, s);
    ListedSorted(s);
    SortBelow(l);
    BelowOrders(Sort(l, Below));
    SortedUnique(Sort(l, Below), Listed(s), Below);
  }

  function RealOf(m: FullName, oneofs: seq<OneofDescriptor>): seq<OwnedOneof> {
    if oneofs == [] then []
    else
      var last := oneofs[|oneofs| - 1];
      RealOf(m, oneofs[..|oneofs| - 1]) + (if last.synthetic then [] else [OwnedOneof(m, last)])
  }

  function RealOneofs(r: Registry, messages: seq<FullName>): seq<OwnedOneof> {
    if messages == [] then []
    else
      var last := messages[|messages| - 1];
      RealOneofs(r, messages[..|messages| - 1])
      + (if last in r.messages then RealOf(last, r.messages[last].oneofs) else [])
  }

  function OneofBelow(o: OwnedOneof, p: OwnedOneof): bool { Below(o.descriptor.fullName, p.descriptor.fullName) }

  function SortedOneofs(r: Registry, messages: seq<FullName>): seq<OwnedOneof> {
    Sort(RealOneofs(r, messages), OneofBelow)
  }

  /** Every oneof has a name, which no message and no other oneof has. */
  predicate OneofsNamed(names: map<FullName, string>, oneofs: seq<OwnedOneof>) {
    && (forall k :: 0 <= k < |oneofs| ==> OneofName(names, oneofs[k]).Some?)
    && (forall k :: 0 <= k < |oneofs| ==> OneofName(names, oneofs[k]).GetOr("") !in names.Values)
    && (forall j, k :: 0 <= j < k < |oneofs| ==> OneofName(names, oneofs[j]) != OneofName(names, oneofs[k]))
  }

  predicate VariantsOk(c: Context, oneofs: seq<OwnedOneof>) {
    forall k :: 0 <= k < |oneofs| ==> VariantOk(c, oneofs[k])
  }

  function AllVariants(c: Context, oneofs: seq<OwnedOneof>): seq<WitVariant>
    requires VariantsOk(c, oneofs)
  {
    seq(|oneofs|, k requires 0 <= k < |oneofs| => VariantOf(c, oneofs[k]))
  }

  function ByFullName(variants: seq<WitVariant>): Variants {
    if variants == [] then map[]
    else ByFullName(variants[..|variants| - 1])[variants[|variants| - 1].fullName := variants[|variants| - 1]]
  }

  /** Some member of a listed oneof is the empty message `m`. */
  ghost predicate IsEmptyMember(r: Registry, oneofs: seq<OwnedOneof>, m: FullName) {
    exists k, j :: 0 <= k < |oneofs| && 0 <= j < |Members(r, oneofs[k])|
                   && HasEmptyTarget(r, Members(r, oneofs[k])[j]) && Members(r, oneofs[k])[j].message == m
  }

  function NonEmpty(r: Registry, messages: seq<FullName>): seq<FullName> {
    if messages == [] then []
    else
      var last := messages[|messages| - 1];
      NonEmpty(r, messages[..|messages| - 1]) + (if IsEmptyMessage(r, last) then [] else [last])
  }

  predicate RecordsOk(c: Context, variants: Variants, messages: seq<FullName>) {
    forall k :: 0 <= k < |messages| ==> RecordOk(c, variants, messages[k])
  }

  function AllRecords(c: Context, variants: Variants, messages: seq<FullName>): seq<WitRecord>
    requires RecordsOk(c, variants, messages)
  {
    seq(|messages|, k requires 0 <= k < |messages| => RecordOf(c, variants, messages[k]))
  }

  /** The messages, in order, convert to the given records and variants. */
  ghost predicate Converts(c: Context, messages: seq<FullName>, records: seq<WitRecord>, variants: seq<WitVariant>) {
    var oneofs := SortedOneofs(c.registry, messages);
    && OneofsNamed(c.names, oneofs)
    && VariantsOk(c, oneofs) && variants == AllVariants(c, oneofs)
    && (forall m :: m in messages && IsEmptyMessage(c.registry, m) ==> IsEmptyMember(c.registry, oneofs, m))
    && RecordsOk(c, ByFullName(variants), NonEmpty(c.registry, messages))
    && records == AllRecords(c, ByFullName(variants), NonEmpty(c.registry, messages))
    && Ordered(records)
  }

  predicate FileOk(f: FileDescriptor) { !f.hasServices && !f.hasExtensions && f.enums == [] }

  /** The messages of the files. */
  ghost function RequestedIn(r: Registry, paths: set<string>): set<FullName> {
    set p, m | p in paths && p in r.files && m in r.files[p].messages :: m
  }

  /** Only supported constructs stand in the requested files and in the files of the needed messages. */
  ghost predicate FilesOk(r: Registry, paths: set<string>, needed: set<FullName>) {
    && (forall p :: p in paths && p in r.files ==> FileOk(r.files[p]))
    && (forall m :: m in needed && m in r.messages && r.messages[m].path in r.files ==>
         FileOk(r.files[r.messages[m].path]))
  }

  datatype Body = Body(records: seq<WitRecord>, variants: seq<WitVariant>)

  /** What the requested messages need can be named, stands in supported files and converts to the given body. */
  ghost predicate IsBody(r: Registry, package: FullName, requested: set<FullName>, paths: set<string>, body: Body) {
    var needed := Needed(r, package, requested);
    && FilesOk(r, paths, needed)
    && Nameable(r, package, needed)
    && Converts(Context(r, NamesOf(package, needed)), Listed(needed), body.records, body.variants)
  }

  /** `schema` is the schema of the package as requested through the files at `paths`. */
  ghost predicate IsSchemaOf(r: Registry, package: FullName, paths: set<string>, schema: WitSchema) {
    && IdOf(package) == Some(schema.packageId)
    && schema.path == schema.packageId.OutputDirectory() + "/messages.wit"
    && schema.protoPackage == package
    && IsBody(r, package, RequestedIn(r, paths), paths, Body(schema.records, schema.variants))
  }
}
