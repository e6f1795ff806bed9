/** Which byte strings the context decoder accepts. */
module WireExact {
  import opened Prelude
  import opened Varint
  import opened Wire

  // ----- what an accepted byte string looks like -----

  /** One length-delimited field: tag, length and payload bytes. */
  datatype Chunk = Chunk(number: nat, tag: seq<byte>, length: seq<byte>, payload: seq<byte>) {
    function Bytes(): (bytes: seq<byte>)
      ensures |bytes| == |tag| + |length| + |payload|
    {
      tag + length + payload
    }
  }

  function Flatten(chunks: seq<Chunk>): seq<byte> {
    if chunks == [] then [] else chunks[0].Bytes() + Flatten(chunks[1..])
  }

  predicate ChunkOk(expected: map<nat, Field>, c: Chunk) {
    c.number in expected && IsVarint(c.tag, 8 * c.number + 2) && IsVarint(c.length, |c.payload|)
  }

  predicate NumbersDiffer(chunks: seq<Chunk>) {
    forall j, k :: 0 <= j < k < |chunks| ==> chunks[j].number != chunks[k].number
  }

  /** `data` is a sequence of chunks, in any order, that holds each expected field exactly once. */
  ghost predicate Layout(data: seq<byte>, expected: map<nat, Field>, chunks: seq<Chunk>) {
    && data == Flatten(chunks)
    && (forall j :: 0 <= j < |chunks| ==> ChunkOk(expected, chunks[j]))
    && NumbersDiffer(chunks)
    && (forall n :: n in expected ==> exists j :: 0 <= j < |chunks| && chunks[j].number == n)
  }

  ghost predicate DistinctNames(expected: map<nat, Field>) {
    forall m, n :: m in expected && n in expected && expected[m].name == expected[n].name ==> m == n
  }

  /** The schemas the decoder is meant for: known shapes, and field names that differ within a shape. */
  ghost predicate WellFormed(schema: Schema) {
    Closed(schema) && forall shape :: shape in schema ==> DistinctNames(schema[shape])
  }

  lemma TwoNames(m: nat, f: Field, n: nat, g: Field)
    requires m != n && |f.name| != |g.name|
    ensures DistinctNames(map[m := f, n := g]) && DistinctNames(map[m := f])
  {
  }

  lemma ShapesWellFormed()
    ensures WellFormed(SHAPES)
  {
    ShapesClosed();
    TwoNames(1, Field("binding", Some("binding")), 2, Field("invocation", Some("string")));
    TwoNames(1, Field("grant", Some("grant")), 2, Field("id", Some("string")));
    TwoNames(2, Field("id", Some("string")), 3, Field("parent", Some("parent")));
  }

  function Names(expected: map<nat, Field>): set<string> {
    set n | n in expected :: expected[n].name
  }

  /** `data` carries exactly these fields. */
  ghost predicate Carries(schema: Schema, data: seq<byte>, shape: string, fields: map<string, Node>, utf8: Utf8)
    requires Closed(schema) && shape in schema
    decreases |data|, 1
  {
    var expected := schema[shape];
    && fields.Keys == Names(expected)
    && exists chunks: seq<Chunk> ::
         Layout(data, expected, chunks)
         && forall j :: 0 <= j < |chunks| ==> FieldCarried(schema, expected, |data|, fields, chunks[j], utf8)
  }

  /** The chunk of a field that `fields` carries. */
  ghost predicate FieldCarried(schema: Schema, expected: map<nat, Field>, n: nat, fields: map<string, Node>, c: Chunk,
                               utf8: Utf8)
    requires Closed(schema) && c.number in expected
    requires expected[c.number].child.Some? ==> expected[c.number].child.value in schema
    decreases n, 0
  {
    && expected[c.number].name in fields && |c.payload| < n
    && PayloadCarries(schema, c.payload, expected[c.number].child, fields[expected[c.number].name], utf8)
  }

  ghost predicate PayloadCarries(schema: Schema, raw: seq<byte>, child: Option<string>, node: Node, utf8: Utf8)
    requires Closed(schema) && (child.Some? ==> child.value in schema)
    decreases |raw|, 2
  {
    match child
    case None => node == Leaf(raw) && raw != [] && utf8(raw)
    case Some(shape) => node.Message? && Carries(schema, raw, shape, node.fields, utf8)
  }

  // ----- one chunk at the front -----

  lemma VarintHere(data: seq<byte>, offset: nat, bytes: seq<byte>, v: nat)
    requires offset + |bytes| <= |data| && data[offset..offset + |bytes|] == bytes && IsVarint(bytes, v)
    ensures ReadVarint(data, offset) == Ok((v, offset + |bytes|))
  {
    ReadVarintExact(data, offset, v, offset + |bytes|);
  }

  lemma HeaderOfParts(expected: map<nat, Field>, data: seq<byte>, offset: nat, mid: nat, start: nat, end: nat,
                      seen: set<string>, c: Chunk)
    requires offset <= mid <= start <= end <= |data| && end - start == |c.payload|
    requires data[offset..mid] == c.tag && data[mid..start] == c.length
    requires ChunkOk(expected, c) && expected[c.number].name !in seen
    ensures HeaderAt(expected, data, offset, seen) == Ok(Header(c.number, start, end))
  {
    assert ReadVarint(data, offset) == Ok((8 * c.number + 2, mid))
        && ReadVarint(data, mid) == Ok((|c.payload|, start)) by {
      TwoVarints(data, offset, mid, start, c.tag, 8 * c.number + 2, c.length, |c.payload|);
    }
    HeaderFromReads(expected, data, offset, seen, c.number, mid, |c.payload|, start);
  }

  lemma TwoVarints(data: seq<byte>, offset: nat, mid: nat, start: nat, a: seq<byte>, v: nat, b: seq<byte>, w: nat)
    requires offset <= mid <= start <= |data| && data[offset..mid] == a && data[mid..start] == b
    requires IsVarint(a, v) && IsVarint(b, w)
    ensures ReadVarint(data, offset) == Ok((v, mid)) && ReadVarint(data, mid) == Ok((w, start))
  {
    VarintHere(data, offset, a, v);
    VarintHere(data, mid, b, w);
  }

  lemma HeaderFromReads(expected: map<nat, Field>, data: seq<byte>, offset: nat, seen: set<string>,
                        number: nat, mid: nat, size: nat, start: nat)
    requires ReadVarint(data, offset) == Ok((8 * number + 2, mid)) && ReadVarint(data, mid) == Ok((size, start))
    requires start + size <= |data| && number in expected && expected[number].name !in seen
    ensures HeaderAt(expected, data, offset, seen) == Ok(Header(number, start, start + size))
  {
  }

  lemma ReadBytes(data: seq<byte>, offset: nat) returns (bytes: seq<byte>, v: nat, end: nat)
    requires offset <= |data| && ReadVarint(data, offset).Ok?
    ensures ReadVarint(data, offset) == Ok((v, end)) && offset < end <= |data|
    ensures bytes == data[offset..end] && IsVarint(bytes, v)
  {
    v, end := ReadVarint(data, offset).value.0, ReadVarint(data, offset).value.1;
    bytes := data[offset..end];
    ReadVarintExact(data, offset, v, end);
  }

  lemma ChunkOfHeader(expected: map<nat, Field>, data: seq<byte>, offset: nat, seen: set<string>) returns (c: Chunk)
    requires offset <= |data| && HeaderAt(expected, data, offset, seen).Ok?
    ensures var h := HeaderAt(expected, data, offset, seen).value;
            ChunkOk(expected, c) && c.number == h.number && c.payload == data[h.start..h.end]
            && expected[c.number].name !in seen && c.Bytes() == data[offset..h.end]
  {
    var h := HeaderAt(expected, data, offset, seen).value;
    var tagBytes, tag, mid := ReadBytes(data, offset);
    var sizeBytes, size, start := ReadBytes(data, mid);
    c := Chunk(h.number, tagBytes, sizeBytes, data[h.start..h.end]);
    assert h == Header(tag / 8, start, start + size) && tag % 8 == 2;
    assert tag == 8 * (tag / 8) + 2;
    Joined(data, offset, mid, start, h.end);
  }

  lemma Joined(data: seq<byte>, a: nat, b: nat, c: nat, d: nat)
    requires a <= b <= c <= d <= |data|
    ensures data[a..b] + data[b..c] + data[c..d] == data[a..d]
  {
  }

  // ----- the rest of a message whose first fields have been read -----

  /** What a payload means, left abstract while the fields of one message are taken apart. */
  type Meaning = (seq<byte>, Option<string>, Node) -> bool

  ghost predicate NewField(expected: map<nat, Field>, seen: set<string>, result: map<string, Node>, c: Chunk,
                           means: Meaning)
  {
    && ChunkOk(expected, c)
    && expected[c.number].name !in seen && expected[c.number].name in result
    && means(c.payload, expected[c.number].child, result[expected[c.number].name])
  }

  ghost predicate Named(expected: map<nat, Field>, chunks: seq<Chunk>, name: string) {
    exists j :: 0 <= j < |chunks| && chunks[j].number in expected && name == expected[chunks[j].number].name
  }

  /** Reading `chunks` off `rest` one by one turns `fields` into `result`. */
  ghost predicate Remaining(rest: seq<byte>, expected: map<nat, Field>, fields: map<string, Node>,
                            result: map<string, Node>, chunks: seq<Chunk>, means: Meaning)
    decreases |chunks|
  {
    if chunks == [] then rest == [] && fields == result && |fields| == |expected|
    else
      var c := chunks[0];
      && NewField(expected, fields.Keys, result, c, means)
      && c.Bytes() <= rest
      && Remaining(rest[|c.Bytes()|..], expected, fields[expected[c.number].name := result[expected[c.number].name]],
                   result, chunks[1..], means)
  }

  /** The same, said of all the chunks at once. */
  ghost predicate Spread(rest: seq<byte>, expected: map<nat, Field>, fields: map<string, Node>,
                         result: map<string, Node>, chunks: seq<Chunk>, means: Meaning)
  {
    && rest == Flatten(chunks)
    && NumbersDiffer(chunks)
    && (forall j :: 0 <= j < |chunks| ==> NewField(expected, fields.Keys, result, chunks[j], means))
    && (forall k :: k in fields ==> k in result && result[k] == fields[k])
    && (forall k :: k in result && k !in fields ==> Named(expected, chunks, k))
    && |result| == |expected|
  }

  lemma {:induction false} SpreadIsRemaining(rest: seq<byte>, expected: map<nat, Field>, fields: map<string, Node>,
                                             result: map<string, Node>, chunks: seq<Chunk>, means: Meaning)
    requires DistinctNames(expected) && Spread(rest, expected, fields, result, chunks, means)
    ensures Remaining(rest, expected, fields, result, chunks, means)
    decreases |chunks|
  {
    if chunks == [] {
      assert result.Keys == fields.Keys;
    } else {
      SpreadPop(rest, expected, fields, result, chunks, means);
      var c, name := chunks[0], expected[chunks[0].number].name;
      SpreadIsRemaining(rest[|c.Bytes()|..], expected, fields[name := result[name]], result, chunks[1..], means);
    }
  }

  lemma Rejoined(c: Chunk, rest: seq<byte>)
    requires c.Bytes() <= rest
    ensures rest == c.Bytes() + rest[|c.Bytes()|..]
  {
  }

  lemma {:induction false} RemainingIsSpread(rest: seq<byte>, expected: map<nat, Field>, fields: map<string, Node>,
                                             result: map<string, Node>, chunks: seq<Chunk>, means: Meaning)
    requires DistinctNames(expected) && Remaining(rest, expected, fields, result, chunks, means)
    ensures Spread(rest, expected, fields, result, chunks, means)
    decreases |chunks|
  {
    if chunks != [] {
      var c := chunks[0];
      var node, tail := result[expected[c.number].name], rest[|c.Bytes()|..];
      assert Remaining(tail, expected, fields[expected[c.number].name := node], result, chunks[1..], means);
      RemainingIsSpread(tail, expected, fields[expected[c.number].name := node], result, chunks[1..], means);
      SpreadPush(tail, expected, fields, result, c, node, chunks[1..], means);
      Rejoined(c, rest);
      assert chunks == [c] + chunks[1..];
    }
  }

  lemma SpreadPop(rest: seq<byte>, expected: map<nat, Field>, fields: map<string, Node>, result: map<string, Node>,
                     chunks: seq<Chunk>, means: Meaning)
    requires DistinctNames(expected)
    requires Spread(rest, expected, fields, result, chunks, means) && chunks != []
    ensures var c := chunks[0];
            && NewField(expected, fields.Keys, result, c, means)
            && c.Bytes() <= rest
            && Spread(rest[|c.Bytes()|..], expected,
                         fields[expected[c.number].name := result[expected[c.number].name]], result, chunks[1..], means)
  {
    var name := expected[chunks[0].number].name;
    assert NewField(expected, fields.Keys, result, chunks[0], means);
    FlattenFirst(chunks);
    PopFields(rest, expected, fields, result, chunks, means);
    PopNames(rest, expected, fields, result, chunks, means);
    var more := fields[name := result[name]];
    assert more.Keys == fields.Keys + {name};
    assert forall k :: k in more ==> k in result && result[k] == more[k];
  }

  lemma FlattenFirst(chunks: seq<Chunk>)
    requires chunks != []
    ensures var n := |chunks[0].Bytes()|;
            chunks[0].Bytes() <= Flatten(chunks) && Flatten(chunks)[n..] == Flatten(chunks[1..])
  {
  }

  lemma PopFields(rest: seq<byte>, expected: map<nat, Field>, fields: map<string, Node>, result: map<string, Node>,
                  chunks: seq<Chunk>, means: Meaning)
    requires DistinctNames(expected)
    requires Spread(rest, expected, fields, result, chunks, means) && chunks != []
    requires NewField(expected, fields.Keys, result, chunks[0], means)
    ensures NumbersDiffer(chunks[1..])
    ensures forall j :: 0 <= j < |chunks[1..]| ==>
              NewField(expected, fields.Keys + {expected[chunks[0].number].name}, result, chunks[1..][j], means)
  {
    forall j | 0 <= j < |chunks[1..]|
      ensures NewField(expected, fields.Keys + {expected[chunks[0].number].name}, result, chunks[1..][j], means)
    {
      assert NewField(expected, fields.Keys, result, chunks[j + 1], means);
    }
  }

  lemma PopNames(rest: seq<byte>, expected: map<nat, Field>, fields: map<string, Node>, result: map<string, Node>,
                 chunks: seq<Chunk>, means: Meaning)
    requires Spread(rest, expected, fields, result, chunks, means) && chunks != []
    requires NewField(expected, fields.Keys, result, chunks[0], means)
    ensures forall k :: k in result && k !in fields && k != expected[chunks[0].number].name ==>
              Named(expected, chunks[1..], k)
  {
    forall k | k in result && k !in fields && k != expected[chunks[0].number].name
      ensures Named(expected, chunks[1..], k)
    {
      var j :| 0 <= j < |chunks| && chunks[j].number in expected && k == expected[chunks[j].number].name;
      assert chunks[j] == chunks[1..][j - 1];
    }
  }

  lemma SpreadPush(tail: seq<byte>, expected: map<nat, Field>, fields: map<string, Node>, result: map<string, Node>,
                      c: Chunk, node: Node, chunks: seq<Chunk>, means: Meaning)
    requires ChunkOk(expected, c) && expected[c.number].name !in fields
    requires means(c.payload, expected[c.number].child, node)
    requires Spread(tail, expected, fields[expected[c.number].name := node], result, chunks, means)
    ensures Spread(c.Bytes() + tail, expected, fields, result, [c] + chunks, means)
  {
    var name, all := expected[c.number].name, [c] + chunks;
    assert all[1..] == chunks && name in fields[name := node] && result[name] == node;
    PushFields(tail, expected, fields, result, c, node, chunks, means);
    PushNames(tail, expected, fields, result, c, node, chunks, means);
  }

  lemma PushFields(tail: seq<byte>, expected: map<nat, Field>, fields: map<string, Node>, result: map<string, Node>,
                   c: Chunk, node: Node, chunks: seq<Chunk>, means: Meaning)
    requires ChunkOk(expected, c) && expected[c.number].name !in fields
    requires Spread(tail, expected, fields[expected[c.number].name := node], result, chunks, means)
    ensures forall j :: 0 <= j < |chunks| ==>
              NewField(expected, fields.Keys, result, chunks[j], means) && chunks[j].number != c.number
  {
  }

  lemma PushNames(tail: seq<byte>, expected: map<nat, Field>, fields: map<string, Node>, result: map<string, Node>,
                  c: Chunk, node: Node, chunks: seq<Chunk>, means: Meaning)
    requires ChunkOk(expected, c) && expected[c.number].name !in fields
    requires Spread(tail, expected, fields[expected[c.number].name := node], result, chunks, means)
    ensures forall k :: k in result && k !in fields ==> Named(expected, [c] + chunks, k)
  {
    var name, all := expected[c.number].name, [c] + chunks;
    forall k | k in result && k !in fields
      ensures Named(expected, all, k)
    {
      if k == name {
        assert all[0] == c;
      } else {
        assert k !in fields[name := node];
        var j :| 0 <= j < |chunks| && chunks[j].number in expected && k == expected[chunks[j].number].name;
        assert all[j + 1] == chunks[j];
      }
    }
  }

  /** Payloads shorter than `n` bytes are decoded to what they mean. */
  ghost predicate Decoded(schema: Schema, n: nat, means: Meaning, utf8: Utf8)
    requires Closed(schema)
  {
    forall raw, child: Option<string>, node {:trigger means(raw, child, node), PayloadSpec(schema, raw, child, utf8)} ::
      |raw| < n && (child.Some? ==> child.value in schema) ==>
      (means(raw, child, node) <==> PayloadSpec(schema, raw, child, utf8) == Ok(node))
  }

  lemma FieldsUnfold(schema: Schema, data: seq<byte>, offset: nat, shape: string, fields: map<string, Node>, utf8: Utf8,
                     h: Header, raw: seq<byte>, node: Node)
    requires Closed(schema) && shape in schema && offset < |data|
    requires HeaderAt(schema[shape], data, offset, fields.Keys) == Ok(h) && data[h.start..h.end] == raw
    requires PayloadSpec(schema, raw, schema[shape][h.number].child, utf8) == Ok(node)
    ensures FieldsFrom(schema, data, offset, shape, fields, utf8)
         == FieldsFrom(schema, data, h.end, shape, fields[schema[shape][h.number].name := node], utf8)
  {
  }

  lemma {:induction false} FieldsComplete(
    schema: Schema, data: seq<byte>, offset: nat, shape: string, fields: map<string, Node>,
    result: map<string, Node>, chunks: seq<Chunk>, means: Meaning, utf8: Utf8)
    requires Closed(schema) && shape in schema && Decoded(schema, |data|, means, utf8)
    requires offset <= |data| && Remaining(data[offset..], schema[shape], fields, result, chunks, means)
    ensures FieldsFrom(schema, data, offset, shape, fields, utf8) == Ok(result)
    decreases |chunks|
  {
    if chunks == [] {
      FieldsEnd(schema, data, offset, shape, fields, result, means, utf8);
    } else {
      var end, more := FieldsStep(schema, data, offset, shape, fields, result, chunks, means, utf8);
      FieldsComplete(schema, data, end, shape, more, result, chunks[1..], means, utf8);
    }
  }

  lemma FieldsEnd(schema: Schema, data: seq<byte>, offset: nat, shape: string, fields: map<string, Node>,
                  result: map<string, Node>, means: Meaning, utf8: Utf8)
    requires Closed(schema) && shape in schema
    requires offset <= |data| && Remaining(data[offset..], schema[shape], fields, result, [], means)
    ensures FieldsFrom(schema, data, offset, shape, fields, utf8) == Ok(result)
  {
  }

  lemma FieldsStep(
    schema: Schema, data: seq<byte>, offset: nat, shape: string, fields: map<string, Node>,
    result: map<string, Node>, chunks: seq<Chunk>, means: Meaning, utf8: Utf8)
    returns (end: nat, more: map<string, Node>)
    requires Closed(schema) && shape in schema && Decoded(schema, |data|, means, utf8) && chunks != []
    requires offset <= |data| && Remaining(data[offset..], schema[shape], fields, result, chunks, means)
    ensures end <= |data| && Remaining(data[end..], schema[shape], more, result, chunks[1..], means)
    ensures FieldsFrom(schema, data, offset, shape, fields, utf8) == FieldsFrom(schema, data, end, shape, more, utf8)
  {
    var c := chunks[0];
    RemainingAt(data, offset, schema[shape], fields, result, chunks, means);
    var name := schema[shape][c.number].name;
    end, more := offset + |c.Bytes()|, fields[name := result[name]];
    PayloadAt(schema, shape, |data|, |data| - offset, fields.Keys, result, c, means, utf8);
    OneField(schema, data, offset, end, shape, fields, c, result[name], utf8);
  }

  /** The payload of the next chunk is shorter than the data and means what the result says. */
  lemma PayloadAt(schema: Schema, shape: string, n: nat, left: nat, seen: set<string>, result: map<string, Node>,
                  c: Chunk, means: Meaning, utf8: Utf8)
    requires Closed(schema) && shape in schema && Decoded(schema, n, means, utf8) && |c.Bytes()| <= left <= n
    requires NewField(schema[shape], seen, result, c, means)
    ensures left > 0
    ensures var field := schema[shape][c.number];
            (field.child.Some? ==> field.child.value in schema)
            && PayloadSpec(schema, c.payload, field.child, utf8) == Ok(result[field.name])
  {
  }

  /** The chunk at `offset` is read as the field it stands for. */
  lemma OneField(schema: Schema, data: seq<byte>, offset: nat, end: nat, shape: string, fields: map<string, Node>,
                 c: Chunk, node: Node, utf8: Utf8)
    requires Closed(schema) && shape in schema && offset < |data| && end == offset + |c.Bytes()| <= |data|
    requires c.Bytes() <= data[offset..]
    requires ChunkOk(schema[shape], c) && schema[shape][c.number].name !in fields
    requires schema[shape][c.number].child.Some? ==> schema[shape][c.number].child.value in schema
    requires PayloadSpec(schema, c.payload, schema[shape][c.number].child, utf8) == Ok(node)
    ensures FieldsFrom(schema, data, offset, shape, fields, utf8)
         == FieldsFrom(schema, data, end, shape, fields[schema[shape][c.number].name := node], utf8)
  {
    var h := FrontHeader(schema[shape], data, offset, end, fields.Keys, c);
    FieldsUnfold(schema, data, offset, shape, fields, utf8, h, c.payload, node);
  }

  lemma FrontHeader(expected: map<nat, Field>, data: seq<byte>, offset: nat, end: nat, seen: set<string>, c: Chunk)
      returns (h: Header)
    requires end == offset + |c.Bytes()| <= |data| && c.Bytes() <= data[offset..]
    requires ChunkOk(expected, c) && expected[c.number].name !in seen
    ensures h.number == c.number && h.start <= h.end == end && data[h.start..h.end] == c.payload
    ensures HeaderAt(expected, data, offset, seen) == Ok(h)
  {
    var start := end - |c.payload|;
    ChunkInPlace(data, offset, end, c);
    HeaderOfParts(expected, data, offset, offset + |c.tag|, start, end, seen, c);
    h := Header(c.number, start, end);
  }

  lemma ChunkInPlace(data: seq<byte>, offset: nat, end: nat, c: Chunk)
    requires end == offset + |c.Bytes()| <= |data| && c.Bytes() <= data[offset..]
    ensures data[offset..offset + |c.tag|] == c.tag
    ensures data[offset + |c.tag|..end - |c.payload|] == c.length
    ensures data[end - |c.payload|..end] == c.payload
  {
    var before, after := data[..offset], data[end..];
    assert data == before + c.tag + c.length + c.payload + after by {
      assert data == before + c.Bytes() + after;
    }
  }

  lemma RemainingAt(data: seq<byte>, offset: nat, expected: map<nat, Field>, fields: map<string, Node>,
                    result: map<string, Node>, chunks: seq<Chunk>, means: Meaning)
    requires offset <= |data| && Remaining(data[offset..], expected, fields, result, chunks, means) && chunks != []
    ensures var c := chunks[0];
            && NewField(expected, fields.Keys, result, c, means)
            && offset + |c.Bytes()| <= |data| && c.Bytes() <= data[offset..]
            && Remaining(data[offset + |c.Bytes()|..], expected,
                         fields[expected[c.number].name := result[expected[c.number].name]], result, chunks[1..], means)
  {
  }

  lemma {:induction false} FieldsSound(
    schema: Schema, data: seq<byte>, offset: nat, shape: string, fields: map<string, Node>, means: Meaning, utf8: Utf8)
    returns (chunks: seq<Chunk>)
    requires Closed(schema) && shape in schema && Decoded(schema, |data|, means, utf8)
    requires offset <= |data| && FieldsFrom(schema, data, offset, shape, fields, utf8).Ok?
    ensures Remaining(data[offset..], schema[shape], fields,
                      FieldsFrom(schema, data, offset, shape, fields, utf8).value, chunks, means)
    decreases |data| - offset
  {
    var expected, result := schema[shape], FieldsFrom(schema, data, offset, shape, fields, utf8).value;
    if offset == |data| {
      chunks := [];
    } else {
      var h := HeaderAt(expected, data, offset, fields.Keys).value;
      var c := ChunkOfHeader(expected, data, offset, fields.Keys);
      var name := expected[c.number].name;
      var node := PayloadSpec(schema, c.payload, expected[c.number].child, utf8).value;
      assert means(c.payload, expected[c.number].child, node);
      var rest := FieldsSound(schema, data, h.end, shape, fields[name := node], means, utf8);
      ResultKeeps(data[h.end..], expected, fields[name := node], result, rest, means, name);
      assert data[offset..][|c.Bytes()|..] == data[h.end..];
      chunks := [c] + rest;
      assert chunks[1..] == rest;
    }
  }

  lemma {:induction false} ResultKeeps(rest: seq<byte>, expected: map<nat, Field>, fields: map<string, Node>,
                                       result: map<string, Node>, chunks: seq<Chunk>, means: Meaning, name: string)
    requires Remaining(rest, expected, fields, result, chunks, means) && name in fields
    ensures name in result && result[name] == fields[name]
    decreases |chunks|
  {
    if chunks != [] {
      var c := chunks[0];
      ResultKeeps(rest[|c.Bytes()|..], expected, fields[expected[c.number].name := result[expected[c.number].name]],
                  result, chunks[1..], means, name);
    }
  }

  // ----- whole messages -----

  ghost function Carried(schema: Schema, utf8: Utf8): Meaning
    requires Closed(schema)
  {
    (raw: seq<byte>, child: Option<string>, node: Node) =>
      (child.Some? ==> child.value in schema) && PayloadCarries(schema, raw, child, node, utf8)
  }

  lemma PayloadExact(schema: Schema, raw: seq<byte>, child: Option<string>, node: Node, utf8: Utf8)
    requires WellFormed(schema) && (child.Some? ==> child.value in schema)
    ensures PayloadSpec(schema, raw, child, utf8) == Ok(node) <==> PayloadCarries(schema, raw, child, node, utf8)
    decreases |raw|, 2
  {
    if child.Some? && node.Message? {
      AcceptsExactly(schema, raw, child.value, node.fields, utf8);
    }
  }

  lemma ShorterDecoded(schema: Schema, n: nat, utf8: Utf8)
    requires WellFormed(schema)
    ensures Decoded(schema, n, Carried(schema, utf8), utf8)
    decreases n, 0
  {
    forall raw: seq<byte>, child: Option<string>, node: Node | |raw| < n && (child.Some? ==> child.value in schema)
      ensures Carried(schema, utf8)(raw, child, node) <==> PayloadSpec(schema, raw, child, utf8) == Ok(node)
    {
      PayloadExact(schema, raw, child, node, utf8);
    }
  }

  /** The decoder accepts exactly the byte strings that carry each expected field once, length-delimited, in any
      order, recursively; and what it returns is what they carry. */
  lemma AcceptsExactly(schema: Schema, data: seq<byte>, shape: string, fields: map<string, Node>, utf8: Utf8)
    requires WellFormed(schema) && shape in schema
    ensures WireMessageSpec(schema, data, shape, utf8) == Ok(fields) <==> Carries(schema, data, shape, fields, utf8)
    decreases |data|, 1
  {
    ShorterDecoded(schema, |data|, utf8);
    assert data[0..] == data;
    var means := Carried(schema, utf8);
    if WireMessageSpec(schema, data, shape, utf8) == Ok(fields) {
      var chunks := FieldsSound(schema, data, 0, shape, map[], means, utf8);
      RemainingIsSpread(data, schema[shape], map[], fields, chunks, means);
      SpreadIsCarries(schema, data, shape, fields, chunks, utf8);
    }
    if Carries(schema, data, shape, fields, utf8) {
      var chunks := CarriesIsSpread(schema, data, shape, fields, utf8);
      SpreadIsRemaining(data, schema[shape], map[], fields, chunks, means);
      FieldsComplete(schema, data, 0, shape, map[], fields, chunks, means, utf8);
    }
  }

  lemma SpreadIsCarries(schema: Schema, data: seq<byte>, shape: string, fields: map<string, Node>,
                           chunks: seq<Chunk>, utf8: Utf8)
    requires WellFormed(schema) && shape in schema
    requires Spread(data, schema[shape], map[], fields, chunks, Carried(schema, utf8))
    ensures Carries(schema, data, shape, fields, utf8)
  {
    var expected, means := schema[shape], Carried(schema, utf8);
    LayoutOfSpread(data, expected, fields, chunks, means);
    forall j | 0 <= j < |chunks|
      ensures FieldCarried(schema, expected, |data|, fields, chunks[j], utf8)
    {
      assert NewField(expected, {}, fields, chunks[j], means);
      PartShorter(chunks, j);
    }
  }

  lemma LayoutOfSpread(data: seq<byte>, expected: map<nat, Field>, fields: map<string, Node>,
                          chunks: seq<Chunk>, means: Meaning)
    requires DistinctNames(expected) && Spread(data, expected, map[], fields, chunks, means)
    ensures Layout(data, expected, chunks) && fields.Keys == Names(expected)
  {
    forall k | k in fields
      ensures k in Names(expected)
    {
      assert Named(expected, chunks, k);
    }
    NamesFilled(expected, fields);
    forall n | n in expected
      ensures exists j :: 0 <= j < |chunks| && chunks[j].number == n
    {
      assert expected[n].name in Names(expected);
      assert Named(expected, chunks, expected[n].name);
    }
    forall j | 0 <= j < |chunks|
      ensures ChunkOk(expected, chunks[j])
    {
      assert NewField(expected, {}, fields, chunks[j], means);
    }
  }

  lemma CarriesIsSpread(schema: Schema, data: seq<byte>, shape: string, fields: map<string, Node>, utf8: Utf8)
    returns (chunks: seq<Chunk>)
    requires WellFormed(schema) && shape in schema && Carries(schema, data, shape, fields, utf8)
    ensures Spread(data, schema[shape], map[], fields, chunks, Carried(schema, utf8))
  {
    var expected, means := schema[shape], Carried(schema, utf8);
    chunks :| Layout(data, expected, chunks)
              && forall j :: 0 <= j < |chunks| ==> FieldCarried(schema, expected, |data|, fields, chunks[j], utf8);
    forall j | 0 <= j < |chunks|
      ensures NewField(expected, {}, fields, chunks[j], means)
    {
      assert ChunkOk(expected, chunks[j]) && FieldCarried(schema, expected, |data|, fields, chunks[j], utf8);
    }
    SpreadOfLayout(data, expected, fields, chunks, means);
  }

  lemma SpreadOfLayout(data: seq<byte>, expected: map<nat, Field>, fields: map<string, Node>,
                          chunks: seq<Chunk>, means: Meaning)
    requires DistinctNames(expected) && Layout(data, expected, chunks) && fields.Keys == Names(expected)
    requires forall j :: 0 <= j < |chunks| ==> NewField(expected, {}, fields, chunks[j], means)
    ensures Spread(data, expected, map[], fields, chunks, means)
  {
    NamesCount(expected);
    forall k | k in fields
      ensures Named(expected, chunks, k)
    {
      var n :| n in expected && expected[n].name == k;
      var j :| 0 <= j < |chunks| && chunks[j].number == n;
    }
  }

  // ----- counting names -----

  lemma {:induction false} NamesCount(expected: map<nat, Field>)
    requires DistinctNames(expected)
    ensures |Names(expected)| == |expected|
    decreases |expected|
  {
    if |expected| != 0 {
      var m :| m in expected;
      NamesCount(expected - {m});
      var rest := expected - {m};
      assert forall n :: n in expected <==> n == m || n in rest;
      assert Names(expected) == Names(rest) + {expected[m].name};
      assert expected[m].name !in Names(rest);
    }
  }

  lemma NamesFilled(expected: map<nat, Field>, fields: map<string, Node>)
    requires DistinctNames(expected) && fields.Keys <= Names(expected) && |fields| == |expected|
    ensures fields.Keys == Names(expected)
  {
    NamesCount(expected);
    assert Names(expected) == fields.Keys + (Names(expected) - fields.Keys);
  }

  lemma {:induction false} PartShorter(chunks: seq<Chunk>, j: nat)
    requires j < |chunks| && chunks[j].tag != []
    ensures |chunks[j].payload| < |Flatten(chunks)|
  {
    if j > 0 {
      PartShorter(chunks[1..], j - 1);
    }
  }
}
