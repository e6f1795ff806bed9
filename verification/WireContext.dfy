/** The connector context written out: which bytes stand for which grant, project, binding and invocation. */
module WireContext {
  import opened Prelude
  import opened Varint
  import opened Wire
  import opened WireExact

  /** A length-delimited field. */
  function FieldBytes(number: nat, payload: seq<byte>): (bytes: seq<byte>)
    requires number <= 3
    ensures |payload| < |bytes|
  {
    [8 * number + 2] + EncodeVarint(|payload|) + payload
  }

  /** A text, wrapped in a message of its own. */
  function TextBytes(text: seq<byte>): seq<byte> { FieldBytes(1, text) }

  /** The context: the binding of a grant within a project, and the invocation. */
  function ContextBytes(grant: seq<byte>, project: seq<byte>, binding: seq<byte>, invocation: seq<byte>): seq<byte> {
    FieldBytes(1, BindingBytes(grant, project, binding)) + FieldBytes(2, TextBytes(invocation))
  }

  function BindingBytes(grant: seq<byte>, project: seq<byte>, binding: seq<byte>): seq<byte> {
    FieldBytes(1, GrantBytes(grant, project)) + FieldBytes(2, TextBytes(binding))
  }

  function GrantBytes(grant: seq<byte>, project: seq<byte>): seq<byte> {
    FieldBytes(2, TextBytes(grant)) + FieldBytes(3, FieldBytes(1, TextBytes(project)))
  }

  function TextNode(text: seq<byte>): Node { Message(map["value" := Leaf(text)]) }

  function GrantNode(grant: seq<byte>, project: seq<byte>): Node {
    Message(map["id" := TextNode(grant), "parent" := Message(map["project" := TextNode(project)])])
  }

  function BindingNode(grant: seq<byte>, project: seq<byte>, binding: seq<byte>): Node {
    Message(map["grant" := GrantNode(grant, project), "id" := TextNode(binding)])
  }

  function ChunkOf(number: nat, payload: seq<byte>): (c: Chunk)
    requires number <= 3
    ensures c.Bytes() == FieldBytes(number, payload)
  {
    Chunk(number, [8 * number + 2], EncodeVarint(|payload|), payload)
  }

  lemma ChunkFits(expected: map<nat, Field>, number: nat, payload: seq<byte>)
    requires number <= 3 && number in expected && |payload| < Pow2(64)
    ensures ChunkOk(expected, ChunkOf(number, payload))
  {
    EncodedIsVarint(|payload|);
    var tag: seq<byte> := [8 * number + 2];
    assert tag[1..] == [] && Payload(tag[1..]) == 0;
    assert IsVarint(tag, 8 * number + 2);
  }

  lemma CarriesOne(schema: Schema, shape: string, number: nat, field: Field, payload: seq<byte>, node: Node, utf8: Utf8)
    requires Closed(schema) && shape in schema && schema[shape] == map[number := field] && number <= 3
    requires (field.child.Some? ==> field.child.value in schema) && |payload| < Pow2(64)
    requires PayloadCarries(schema, payload, field.child, node, utf8)
    ensures Carries(schema, FieldBytes(number, payload), shape, map[field.name := node], utf8)
  {
    var c, data, fields := ChunkOf(number, payload), FieldBytes(number, payload), map[field.name := node];
    ChunkFits(schema[shape], number, payload);
    assert Flatten([c]) == c.Bytes() + Flatten([]) == data;
    assert Layout(data, schema[shape], [c]) by {
      assert [c][0].number == number;
    }
    assert FieldCarried(schema, schema[shape], |data|, fields, c, utf8);
    assert fields.Keys == Names(schema[shape]);
  }

  /** A shape of two fields. */
  predicate IsTwo(expected: map<nat, Field>, m: nat, f: Field, n: nat, g: Field) {
    expected.Keys == {m, n} && expected[m] == f && expected[n] == g
  }

  lemma ShapesOfTwo()
    ensures Closed(SHAPES) && "context" in SHAPES && "binding" in SHAPES && "grant" in SHAPES
    ensures IsTwo(SHAPES["context"], 1, Field("binding", Some("binding")), 2, Field("invocation", Some("string")))
    ensures IsTwo(SHAPES["binding"], 1, Field("grant", Some("grant")), 2, Field("id", Some("string")))
    ensures IsTwo(SHAPES["grant"], 2, Field("id", Some("string")), 3, Field("parent", Some("parent")))
  {
    ShapesClosed();
  }

  lemma CarriesTwo(schema: Schema, shape: string, m: nat, f: Field, a: seq<byte>, x: Node, n: nat, g: Field,
                   b: seq<byte>, y: Node, utf8: Utf8)
    requires Closed(schema) && shape in schema && IsTwo(schema[shape], m, f, n, g) && m < n <= 3
    requires (f.child.Some? ==> f.child.value in schema) && (g.child.Some? ==> g.child.value in schema)
    requires f.name != g.name && |a| < Pow2(64) && |b| < Pow2(64)
    requires PayloadCarries(schema, a, f.child, x, utf8) && PayloadCarries(schema, b, g.child, y, utf8)
    ensures Carries(schema, FieldBytes(m, a) + FieldBytes(n, b), shape, map[f.name := x, g.name := y], utf8)
  {
    var data, fields := FieldBytes(m, a) + FieldBytes(n, b), map[f.name := x, g.name := y];
    assert |data| == |FieldBytes(m, a)| + |FieldBytes(n, b)| && fields.Keys == {f.name, g.name};
    TwoCarried(schema, shape, m, f, a, x, n, g, b, y, |data|, fields, utf8);
    TwoLaidOut(schema[shape], m, f, a, n, g, b);
    CarriedBy(schema, shape, data, fields, [ChunkOf(m, a), ChunkOf(n, b)], utf8);
  }

  lemma TwoCarried(schema: Schema, shape: string, m: nat, f: Field, a: seq<byte>, x: Node, n: nat, g: Field,
                   b: seq<byte>, y: Node, size: nat, fields: map<string, Node>, utf8: Utf8)
    requires Closed(schema) && shape in schema && m <= 3 && n <= 3
    requires m in schema[shape] && schema[shape][m] == f && n in schema[shape] && schema[shape][n] == g
    requires f.name in fields && fields[f.name] == x && g.name in fields && fields[g.name] == y
    requires |a| < size && |b| < size
    requires (f.child.Some? ==> f.child.value in schema) && (g.child.Some? ==> g.child.value in schema)
    requires PayloadCarries(schema, a, f.child, x, utf8) && PayloadCarries(schema, b, g.child, y, utf8)
    ensures AllCarried(schema, schema[shape], size, fields, [ChunkOf(m, a), ChunkOf(n, b)], utf8)
  {
    ChunkCarried(schema, shape, m, f, a, x, size, fields, utf8);
    ChunkCarried(schema, shape, n, g, b, y, size, fields, utf8);
  }

  lemma ChunkCarried(schema: Schema, shape: string, number: nat, field: Field, payload: seq<byte>, node: Node, n: nat,
                     fields: map<string, Node>, utf8: Utf8)
    requires Closed(schema) && shape in schema && number in schema[shape] && schema[shape][number] == field
    requires number <= 3 && |payload| < n && field.name in fields && fields[field.name] == node
    requires (field.child.Some? ==> field.child.value in schema)
    requires PayloadCarries(schema, payload, field.child, node, utf8)
    ensures FieldCarried(schema, schema[shape], n, fields, ChunkOf(number, payload), utf8)
  {
  }

  lemma CarriedBy(schema: Schema, shape: string, data: seq<byte>, fields: map<string, Node>, chunks: seq<Chunk>,
                  utf8: Utf8)
    requires Closed(schema) && shape in schema && fields.Keys == Names(schema[shape])
    requires Layout(data, schema[shape], chunks)
    requires AllCarried(schema, schema[shape], |data|, fields, chunks, utf8)
    ensures Carries(schema, data, shape, fields, utf8)
  {
  }

  ghost predicate Carriable(schema: Schema, expected: map<nat, Field>, c: Chunk) {
    c.number in expected && (expected[c.number].child.Some? ==> expected[c.number].child.value in schema)
  }

  ghost predicate AllCarried(schema: Schema, expected: map<nat, Field>, n: nat, fields: map<string, Node>,
                             chunks: seq<Chunk>, utf8: Utf8)
    requires Closed(schema)
  {
    forall j :: 0 <= j < |chunks| ==>
      Carriable(schema, expected, chunks[j]) && FieldCarried(schema, expected, n, fields, chunks[j], utf8)
  }

  lemma TwoLaidOut(expected: map<nat, Field>, m: nat, f: Field, a: seq<byte>, n: nat, g: Field, b: seq<byte>)
    requires IsTwo(expected, m, f, n, g) && m < n <= 3 && |a| < Pow2(64) && |b| < Pow2(64)
    ensures Layout(FieldBytes(m, a) + FieldBytes(n, b), expected, [ChunkOf(m, a), ChunkOf(n, b)])
    ensures Names(expected) == {f.name, g.name}
  {
    var chunks := [ChunkOf(m, a), ChunkOf(n, b)];
    ChunkFits(expected, m, a);
    ChunkFits(expected, n, b);
    TwoFlat(chunks[0], chunks[1]);
    assert chunks[0].number == m && chunks[1].number == n;
    assert expected[m].name == f.name && expected[n].name == g.name;
  }

  lemma TwoFlat(c: Chunk, d: Chunk)
    ensures Flatten([c, d]) == c.Bytes() + d.Bytes()
  {
    assert [c, d][1..] == [d] && [d][1..] == [];
    assert Flatten([d]) == d.Bytes() + [] == d.Bytes();
  }

  lemma TextCarried(text: seq<byte>, utf8: Utf8)
    requires text != [] && utf8(text) && |text| < Pow2(64)
    ensures Closed(SHAPES) && PayloadCarries(SHAPES, TextBytes(text), Some("string"), TextNode(text), utf8)
  {
    ShapesClosed();
    CarriesOne(SHAPES, "string", 1, Field("value", None), text, Leaf(text), utf8);
  }

  lemma ParentCarried(project: seq<byte>, utf8: Utf8)
    requires project != [] && utf8(project) && |TextBytes(project)| < Pow2(64)
    ensures Closed(SHAPES)
    ensures PayloadCarries(SHAPES, FieldBytes(1, TextBytes(project)), Some("parent"),
                           Message(map["project" := TextNode(project)]), utf8)
  {
    TextCarried(project, utf8);
    CarriesOne(SHAPES, "parent", 1, Field("project", Some("string")), TextBytes(project), TextNode(project), utf8);
  }

  lemma GrantCarried(grant: seq<byte>, project: seq<byte>, utf8: Utf8)
    requires grant != [] && utf8(grant) && project != [] && utf8(project)
    requires |GrantBytes(grant, project)| < Pow2(64)
    ensures Closed(SHAPES)
    ensures PayloadCarries(SHAPES, GrantBytes(grant, project), Some("grant"), GrantNode(grant, project), utf8)
  {
    ShapesOfTwo();
    TextCarried(grant, utf8);
    ParentCarried(project, utf8);
    CarriesTwo(SHAPES, "grant", 2, Field("id", Some("string")), TextBytes(grant), TextNode(grant),
               3, Field("parent", Some("parent")), FieldBytes(1, TextBytes(project)),
               Message(map["project" := TextNode(project)]), utf8);
  }

  lemma BindingCarried(grant: seq<byte>, project: seq<byte>, binding: seq<byte>, utf8: Utf8)
    requires grant != [] && utf8(grant) && project != [] && utf8(project) && binding != [] && utf8(binding)
    requires |BindingBytes(grant, project, binding)| < Pow2(64)
    ensures Closed(SHAPES)
    ensures PayloadCarries(SHAPES, BindingBytes(grant, project, binding), Some("binding"),
                           BindingNode(grant, project, binding), utf8)
  {
    ShapesOfTwo();
    GrantCarried(grant, project, utf8);
    TextCarried(binding, utf8);
    CarriesTwo(SHAPES, "binding", 1, Field("grant", Some("grant")), GrantBytes(grant, project),
               GrantNode(grant, project), 2, Field("id", Some("string")), TextBytes(binding), TextNode(binding), utf8);
  }

  /** These bytes are decoded to this context, for all texts that are not empty. */
  lemma ContextReads(grant: seq<byte>, project: seq<byte>, binding: seq<byte>, invocation: seq<byte>, utf8: Utf8)
    requires grant != [] && utf8(grant) && project != [] && utf8(project)
    requires binding != [] && utf8(binding) && invocation != [] && utf8(invocation)
    requires |ContextBytes(grant, project, binding, invocation)| < Pow2(64)
    ensures Closed(SHAPES)
    ensures WireMessageSpec(SHAPES, ContextBytes(grant, project, binding, invocation), "context", utf8)
         == Ok(map["binding" := BindingNode(grant, project, binding), "invocation" := TextNode(invocation)])
  {
    ShapesOfTwo();
    BindingCarried(grant, project, binding, utf8);
    TextCarried(invocation, utf8);
    CarriesTwo(SHAPES, "context", 1, Field("binding", Some("binding")), BindingBytes(grant, project, binding),
               BindingNode(grant, project, binding), 2, Field("invocation", Some("string")), TextBytes(invocation),
               TextNode(invocation), utf8);
    ShapesWellFormed();
    AcceptsExactly(SHAPES, ContextBytes(grant, project, binding, invocation), "context",
                   map["binding" := BindingNode(grant, project, binding), "invocation" := TextNode(invocation)], utf8);
  }
}
