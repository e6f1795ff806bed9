/** Decoding undoes encoding, whatever order the fields are written in. */
module WireRoundTrip {
  import opened Prelude
  import opened Varint
  import opened Wire
  import opened WireExact

  /** A tree the schema describes: every expected field, texts non-empty and valid. */
  ghost predicate WellTyped(schema: Schema, child: Option<string>, node: Node, utf8: Utf8)
    requires Closed(schema) && (child.Some? ==> child.value in schema)
    decreases node
  {
    match child
    case None => node.Leaf? && node.text != [] && utf8(node.text)
    case Some(shape) =>
      && node.Message? && node.fields.Keys == Names(schema[shape])
      && forall n :: n in schema[shape] ==>
           WellTyped(schema, schema[shape][n].child, node.fields[schema[shape][n].name], utf8)
  }

  /** `order` lists every field number of the shape once. */
  predicate IsOrder(order: seq<nat>, expected: map<nat, Field>) {
    && (forall j, k :: 0 <= j < k < |order| ==> order[j] != order[k])
    && (forall j :: 0 <= j < |order| ==> order[j] in expected)
    && (forall n :: n in expected ==> n in order)
  }

  /** The field order to use for a shape at a place in the tree, given by the names that lead there. */
  type Ordering = (string, seq<string>) -> seq<nat>

  ghost predicate Orders(ordering: Ordering, schema: Schema) {
    forall shape, path :: shape in schema ==> IsOrder(ordering(shape, path), schema[shape])
  }

  /** Tags of all field numbers fit a varint. */
  ghost predicate TagsFit(schema: Schema) {
    forall shape, n :: shape in schema && n in schema[shape] ==> 8 * n + 2 < Pow2(64)
  }

  lemma ShapesTagsFit()
    ensures TagsFit(SHAPES)
  {
    Pow2Seven(0);
    Pow2Add(7, 57);
    assert Pow2(64) >= 128;
    assert forall shape, n :: shape in SHAPES && n in SHAPES[shape] ==> n <= 3;
  }

  // ----- the encoder -----

  ghost function EncodeNode(schema: Schema, child: Option<string>, node: Node, utf8: Utf8, ordering: Ordering,
                            path: seq<string>): seq<byte>
    requires Closed(schema) && (child.Some? ==> child.value in schema)
    requires WellTyped(schema, child, node, utf8) && Orders(ordering, schema)
    decreases node, 2, 0
  {
    match child
    case None => node.text
    case Some(shape) =>
      assert IsOrder(ordering(shape, path), schema[shape]);
      Flatten(EncodeFields(schema, shape, node, utf8, ordering, path, ordering(shape, path)))
  }

  ghost function EncodeFields(schema: Schema, shape: string, node: Node, utf8: Utf8, ordering: Ordering,
                              path: seq<string>, order: seq<nat>): (chunks: seq<Chunk>)
    requires Closed(schema) && shape in schema
    requires WellTyped(schema, Some(shape), node, utf8) && Orders(ordering, schema)
    requires forall j :: 0 <= j < |order| ==> order[j] in schema[shape]
    ensures |chunks| == |order|
    ensures forall j :: 0 <= j < |order| ==>
              chunks[j] == EncodeField(schema, shape, node, utf8, ordering, path, order[j])
    decreases node, 1, |order|
  {
    if order == [] then []
    else
      [EncodeField(schema, shape, node, utf8, ordering, path, order[0])]
      + EncodeFields(schema, shape, node, utf8, ordering, path, order[1..])
  }

  ghost function EncodeField(schema: Schema, shape: string, node: Node, utf8: Utf8, ordering: Ordering,
                             path: seq<string>, n: nat): (c: Chunk)
    requires Closed(schema) && shape in schema && n in schema[shape]
    requires WellTyped(schema, Some(shape), node, utf8) && Orders(ordering, schema)
    ensures c.number == n && c.tag == EncodeVarint(8 * n + 2) && c.length == EncodeVarint(|c.payload|)
    decreases node, 0, 0
  {
    var field := schema[shape][n];
    assert field.name in Names(schema[shape]);
    var payload := EncodeNode(schema, field.child, node.fields[field.name], utf8, ordering, path + [field.name]);
    Chunk(n, EncodeVarint(8 * n + 2), EncodeVarint(|payload|), payload)
  }

  // ----- the round trip -----

  lemma EncodedField(schema: Schema, shape: string, node: Node, utf8: Utf8, ordering: Ordering, path: seq<string>,
                     n: nat)
    requires Closed(schema) && shape in schema && TagsFit(schema) && n in schema[shape]
    requires WellTyped(schema, Some(shape), node, utf8) && Orders(ordering, schema)
    requires |EncodeField(schema, shape, node, utf8, ordering, path, n).payload| < Pow2(64)
    ensures var c, field := EncodeField(schema, shape, node, utf8, ordering, path, n), schema[shape][n];
            && ChunkOk(schema[shape], c) && c.tag != []
            && field.name in node.fields
               && PayloadCarries(schema, c.payload, field.child, node.fields[field.name], utf8)
    decreases node, 0
  {
    var c, field := EncodeField(schema, shape, node, utf8, ordering, path, n), schema[shape][n];
    assert field.name in Names(schema[shape]);
    EncodedIsVarint(8 * n + 2);
    EncodedIsVarint(|c.payload|);
    EncodedCarries(schema, field.child, node.fields[field.name], utf8, ordering, path + [field.name]);
  }

  lemma EncodedCarries(schema: Schema, child: Option<string>, node: Node, utf8: Utf8, ordering: Ordering,
                       path: seq<string>)
    requires Closed(schema) && (child.Some? ==> child.value in schema) && TagsFit(schema)
    requires WellTyped(schema, child, node, utf8) && Orders(ordering, schema)
    requires |EncodeNode(schema, child, node, utf8, ordering, path)| < Pow2(64)
    ensures PayloadCarries(schema, EncodeNode(schema, child, node, utf8, ordering, path), child, node, utf8)
    decreases node, 1
  {
    if child.Some? {
      var shape := child.value;
      var order := ordering(shape, path);
      assert IsOrder(order, schema[shape]);
      var chunks := EncodeFields(schema, shape, node, utf8, ordering, path, order);
      forall j | 0 <= j < |chunks|
        ensures ChunkOk(schema[shape], chunks[j])
        ensures FieldCarried(schema, schema[shape], |Flatten(chunks)|, node.fields, chunks[j], utf8)
      {
        TagNotEmpty(order[j]);
        PartShorter(chunks, j);
        EncodedField(schema, shape, node, utf8, ordering, path, order[j]);
      }
      OrderedLayout(schema[shape], order, chunks);
    }
  }

  lemma TagNotEmpty(n: nat)
    ensures EncodeVarint(8 * n + 2) != []
  {
  }

  lemma OrderedLayout(expected: map<nat, Field>, order: seq<nat>, chunks: seq<Chunk>)
    requires IsOrder(order, expected) && |chunks| == |order|
    requires forall j :: 0 <= j < |chunks| ==> ChunkOk(expected, chunks[j]) && chunks[j].number == order[j]
    ensures Layout(Flatten(chunks), expected, chunks)
  {
    forall n | n in expected
      ensures exists j :: 0 <= j < |chunks| && chunks[j].number == n
    {
      assert n in order;
      var j :| 0 <= j < |order| && order[j] == n;
      assert chunks[j].number == n;
    }
  }

  /** Decoding any encoding of a well-typed tree returns that tree, for every choice of field order at every
      message of it. */
  lemma RoundTrip(schema: Schema, shape: string, fields: map<string, Node>, utf8: Utf8, ordering: Ordering)
    requires WellFormed(schema) && shape in schema && TagsFit(schema)
    requires WellTyped(schema, Some(shape), Message(fields), utf8) && Orders(ordering, schema)
    requires |EncodeNode(schema, Some(shape), Message(fields), utf8, ordering, [])| < Pow2(64)
    ensures WireMessageSpec(schema, EncodeNode(schema, Some(shape), Message(fields), utf8, ordering, []), shape, utf8)
         == Ok(fields)
  {
    EncodedCarries(schema, Some(shape), Message(fields), utf8, ordering, []);
    AcceptsExactly(schema, EncodeNode(schema, Some(shape), Message(fields), utf8, ordering, []), shape, fields, utf8);
  }

  lemma LimitFits()
    ensures 4096 < Pow2(64)
  {
  }

  /** The same for the connector context itself. */
  lemma ContextRoundTrip(fields: map<string, Node>, utf8: Utf8, ordering: Ordering)
    requires Closed(SHAPES)
    requires WellTyped(SHAPES, Some("context"), Message(fields), utf8) && Orders(ordering, SHAPES)
    requires |EncodeNode(SHAPES, Some("context"), Message(fields), utf8, ordering, [])| <= 4096
    ensures var bytes := EncodeNode(SHAPES, Some("context"), Message(fields), utf8, ordering, []);
            WireMessageSpec(SHAPES, bytes, "context", utf8) == Ok(fields)
  {
    ShapesWellFormed();
    ShapesTagsFit();
    LimitFits();
    RoundTrip(SHAPES, "context", fields, utf8, ordering);
  }
}
