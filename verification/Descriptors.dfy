/** Linked protobuf descriptors, reduced to what the WIT generator reads. */
module Descriptors {
  import opened Prelude
  import opened Wit

  datatype Kind =
    | BoolKind | StringKind | BytesKind | FloatKind | DoubleKind
    | Int32Kind | Sint32Kind | Sfixed32Kind | Uint32Kind | Fixed32Kind
    | Int64Kind | Sint64Kind | Sfixed64Kind | Uint64Kind | Fixed64Kind
    | EnumKind | MessageKind | GroupKind

  datatype Cardinality = Optional | Required | Repeated

  datatype FieldDescriptor = FieldDescriptor(
    fullName: FullName,
    name: string,
    number: int,
    kind: Kind,
    cardinality: Cardinality,
    hasPresence: bool,
    isMap: bool,
    message: FullName,
    oneof: Option<OneofDescriptor>)

  datatype OneofDescriptor = OneofDescriptor(fullName: FullName, name: string, synthetic: bool)

  datatype MessageDescriptor = MessageDescriptor(
    package: FullName,
    path: string,
    isMapEntry: bool,
    enums: seq<FullName>,
    hasExtensions: bool,
    nested: seq<FullName>,
    fields: seq<FieldDescriptor>,
    oneofs: seq<OneofDescriptor>)

  datatype FileDescriptor = FileDescriptor(
    package: FullName,
    hasServices: bool,
    hasExtensions: bool,
    enums: seq<FullName>,
    messages: seq<FullName>)

  datatype Registry = Registry(messages: map<FullName, MessageDescriptor>, files: map<string, FileDescriptor>)

  /** A message field resolves, and is a map exactly when its target is a map entry. */
  ghost predicate FieldLinked(r: Registry, f: FieldDescriptor) {
    && (f.isMap ==> f.kind == MessageKind)
    && (f.kind == MessageKind ==> f.message in r.messages && (f.isMap <==> r.messages[f.message].isMapEntry))
  }

  /** Fields of one message have distinct numbers; a containing oneof is declared by the message. */
  ghost predicate MessageLinked(r: Registry, m: MessageDescriptor) {
    && (forall j :: 0 <= j < |m.nested| ==> m.nested[j] in r.messages)
    && (forall j :: 0 <= j < |m.fields| ==> FieldLinked(r, m.fields[j]))
    && (forall j, k :: 0 <= j < k < |m.fields| ==> m.fields[j].number != m.fields[k].number)
    && (forall j :: 0 <= j < |m.fields| && m.fields[j].oneof.Some? ==> m.fields[j].oneof.value in m.oneofs)
    && (forall j, k :: 0 <= j < k < |m.oneofs| ==> m.oneofs[j].fullName != m.oneofs[k].fullName)
    && m.path in r.files
  }

  /** What the protobuf linker guarantees of the descriptors it accepts. */
  ghost predicate Linked(r: Registry) {
    && (forall m :: m in r.messages ==> MessageLinked(r, r.messages[m]))
    && (forall m, n, j, k :: m in r.messages && n in r.messages && m != n
                             && 0 <= j < |r.messages[m].oneofs| && 0 <= k < |r.messages[n].oneofs| ==>
          r.messages[m].oneofs[j].fullName != r.messages[n].oneofs[k].fullName)
    && (forall p, j :: p in r.files && 0 <= j < |r.files[p].messages| ==> r.files[p].messages[j] in r.messages)
  }
}
