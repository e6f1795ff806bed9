/** Which byte strings the context decoder rejects, and for which reason. */
module WireRejects {
  import opened Prelude
  import opened Varint
  import opened Wire
  import opened WireExact

  // ----- where no varint can be read -----

  /** The bytes, of which `k` have been read before, do not go on as a varint: they end while the continuation bits are
      set, or the tenth byte carries more than one bit. */
  predicate NoTail(bytes: seq<byte>, k: nat, why: Failure)
    requires k < 10
  {
    match why
    case ContextTruncated => |bytes| < 10 - k && forall j :: 0 <= j < |bytes| ==> bytes[j] >= 128
    case ContextFormat => |bytes| >= 10 - k && bytes[9 - k] > 1 && forall j :: 0 <= j < 9 - k ==> bytes[j] >= 128
    case _ => false
  }

  predicate NoVarint(bytes: seq<byte>, why: Failure) { NoTail(bytes, 0, why) }

  lemma {:induction false} TailRefused(data: seq<byte>, offset: nat, k: nat, why: Failure)
    requires offset <= |data| && k < 10
    ensures VarintFrom(data, offset, k) == Err(why) <==> NoTail(data[offset..], k, why)
    decreases 10 - k
  {
    var bytes := data[offset..];
    if offset < |data| {
      assert bytes[0] == data[offset];
      if data[offset] >= 128 && k < 9 {
        TailRefused(data, offset + 1, k + 1, why);
        assert bytes == [bytes[0]] + data[offset + 1..];
        assert forall j :: 0 < j < |bytes| ==> bytes[j] == data[offset + 1..][j - 1];
      }
    }
  }

  // ----- what is wrong with the rest of a message -----

  function Numbers(chunks: seq<Chunk>): set<nat> { set c | c in chunks :: c.number }

  /** The chunks stand for different fields, and each holds what its field may hold. */
  ghost predicate AcceptedChunks(schema: Schema, expected: map<nat, Field>, chunks: seq<Chunk>, utf8: Utf8)
    requires Closed(schema) && ChildrenKnown(schema, expected)
  {
    NumbersDiffer(chunks) && forall j :: 0 <= j < |chunks| ==> AcceptedChunk(schema, expected, chunks[j], utf8)
  }

  ghost predicate AcceptedChunk(schema: Schema, expected: map<nat, Field>, c: Chunk, utf8: Utf8)
    requires Closed(schema) && ChildrenKnown(schema, expected)
  {
    ChunkOk(expected, c) && exists node :: PayloadCarries(schema, c.payload, expected[c.number].child, node, utf8)
  }

  ghost predicate ChildrenKnown(schema: Schema, expected: map<nat, Field>) {
    forall n :: n in expected && expected[n].child.Some? ==> expected[n].child.value in schema
  }

  /** `data` begins with accepted chunks, and the rest is faulty. */
  ghost predicate Rejected(schema: Schema, data: seq<byte>, shape: string, why: Failure, utf8: Utf8)
    requires Closed(schema) && shape in schema
    decreases |data|, 2
  {
    exists chunks, rest ::
      && data == Flatten(chunks) + rest
      && AcceptedChunks(schema, schema[shape], chunks, utf8)
      && Faulty(schema, schema[shape], Numbers(chunks), rest, why, utf8)
  }

  /** After the fields with the numbers in `taken`: at the end a field is missing, no tag can be read, or the tag or
      what follows it is wrong. */
  ghost predicate Faulty(schema: Schema, expected: map<nat, Field>, taken: set<nat>, rest: seq<byte>, why: Failure,
                         utf8: Utf8)
    requires Closed(schema) && ChildrenKnown(schema, expected)
    decreases |rest|, 1
  {
    if rest == [] then why == ContextMissingField && exists n :: n in expected && n !in taken
    else
      || NoVarint(rest, why)
      || exists tag, v: nat, tail :: IsVarint(tag, v) && rest == tag + tail
                                && TagFaulty(schema, expected, taken, v, tail, why, utf8)
  }

  /** The tag `v` names no field, one already there, or another wire type; or what follows it is wrong. */
  ghost predicate TagFaulty(schema: Schema, expected: map<nat, Field>, taken: set<nat>, v: nat, tail: seq<byte>,
                            why: Failure, utf8: Utf8)
    requires Closed(schema) && ChildrenKnown(schema, expected)
    decreases |tail|, 1
  {
    if v / 8 !in expected then why == ContextUnknownField
    else if v / 8 in taken then why == ContextDuplicateField
    else if v % 8 != 2 then why == ContextWireType
    else LengthFaulty(schema, tail, expected[v / 8].child, why, utf8)
  }

  /** No length can be read, it goes past the end, or the payload is wrong. */
  ghost predicate LengthFaulty(schema: Schema, tail: seq<byte>, child: Option<string>, why: Failure, utf8: Utf8)
    requires Closed(schema) && (child.Some? ==> child.value in schema)
    decreases |tail|, 0
  {
    || NoVarint(tail, why)
    || exists length, size: nat, body :: IsVarint(length, size) && tail == length + body
         && BodyFaulty(schema, size, body, child, why, utf8)
  }

  ghost predicate BodyFaulty(schema: Schema, size: nat, body: seq<byte>, child: Option<string>, why: Failure,
                             utf8: Utf8)
    requires Closed(schema) && (child.Some? ==> child.value in schema)
    decreases |body|, 4
  {
    if size > |body| then why == ContextTruncated else PayloadFaulty(schema, body[..size], child, why, utf8)
  }

  /** A text is empty or not UTF-8; a message is rejected for a reason of its own. */
  ghost predicate PayloadFaulty(schema: Schema, raw: seq<byte>, child: Option<string>, why: Failure, utf8: Utf8)
    requires Closed(schema) && (child.Some? ==> child.value in schema)
    decreases |raw|, 3
  {
    match child
    case None => why == ContextString && (raw == [] || !utf8(raw))
    case Some(shape) => Rejected(schema, raw, shape, why, utf8)
  }

  // ----- the decoder rejects for that reason -----

  /** Payloads shorter than `n` bytes are rejected for what is wrong with them. */
  ghost predicate RefusedBelow(schema: Schema, n: nat, utf8: Utf8)
    requires Closed(schema)
  {
    forall raw, child: Option<string>, why {:trigger PayloadFaulty(schema, raw, child, why, utf8)} ::
      |raw| < n && (child.Some? ==> child.value in schema) ==>
        (PayloadFaulty(schema, raw, child, why, utf8) <==> PayloadSpec(schema, raw, child, utf8) == Err(why))
  }

  /** The fields decoded so far are those with the numbers in `taken`. */
  ghost predicate Took(expected: map<nat, Field>, fields: map<string, Node>, taken: set<nat>) {
    taken <= expected.Keys && fields.Keys == set n | n in taken :: expected[n].name
  }

  lemma TookAll(expected: map<nat, Field>, fields: map<string, Node>, taken: set<nat>)
    requires DistinctNames(expected) && Took(expected, fields, taken)
    ensures |fields| == |taken|
    ensures |fields| != |expected| <==> exists n :: n in expected && n !in taken
  {
    var part := map n | n in taken :: expected[n];
    assert part.Keys == taken && Names(part) == fields.Keys;
    NamesCount(part);
    if forall n :: n in expected ==> n in taken {
      assert taken == expected.Keys;
    } else {
      assert taken < expected.Keys;
      Smaller(taken, expected.Keys);
    }
  }

  lemma Smaller<T>(a: set<T>, b: set<T>)
    requires a < b
    ensures |a| < |b|
  {
    var x :| x in b && x !in a;
    assert |b| == |a| + |b - a|;
  }

  lemma TookName(expected: map<nat, Field>, fields: map<string, Node>, taken: set<nat>, n: nat)
    requires DistinctNames(expected) && Took(expected, fields, taken) && n in expected
    ensures expected[n].name in fields <==> n in taken
  {
  }

  /** The header at `offset`, or the payload it leads to, fails for the reason. */
  predicate FailsHere(schema: Schema, data: seq<byte>, offset: nat, shape: string, fields: map<string, Node>,
                      why: Failure, utf8: Utf8)
    requires Closed(schema) && shape in schema && offset <= |data|
  {
    if offset == |data| then why == ContextMissingField && |fields| != |schema[shape]|
    else
      var header := HeaderAt(schema[shape], data, offset, fields.Keys);
      if header.Err? then header.error == why
      else
        var h := header.value;
        PayloadSpec(schema, data[h.start..h.end], schema[shape][h.number].child, utf8) == Err(why)
  }

  /** How a varint at the front of the bytes is found. */
  lemma FrontVarint(data: seq<byte>, at: nat, bytes: seq<byte>, v: nat, tail: seq<byte>)
    requires at <= |data| && IsVarint(bytes, v) && data[at..] == bytes + tail
    ensures ReadVarint(data, at) == Ok((v, at + |bytes|)) && at + |bytes| <= |data| && tail == data[at + |bytes|..]
  {
    assert data[at..at + |bytes|] == data[at..][..|bytes|] == bytes;
    assert data[at + |bytes|..] == data[at..][|bytes|..] == tail;
    VarintHere(data, at, bytes, v);
  }

  type Claim = (nat, seq<byte>) -> bool

  /** The bytes begin with a varint whose value and tail the claim holds of. */
  ghost predicate Begins(bytes: seq<byte>, claim: Claim) {
    exists front, v: nat, tail :: IsVarint(front, v) && bytes == front + tail && claim(v, tail)
  }

  lemma BeginsExact(data: seq<byte>, at: nat, claim: Claim)
    requires at <= |data|
    ensures Begins(data[at..], claim)
        <==> var read := ReadVarint(data, at); read.Ok? && claim(read.value.0, data[read.value.1..])
  {
    var read := ReadVarint(data, at);
    if read.Ok? {
      ReadVarintExact(data, at, read.value.0, read.value.1);
      assert data[at..] == data[at..read.value.1] + data[read.value.1..];
    }
    if front, v: nat, tail :| IsVarint(front, v) && data[at..] == front + tail && claim(v, tail) {
      FrontVarint(data, at, front, v, tail);
    }
  }

  lemma BodyExact(schema: Schema, data: seq<byte>, start: nat, size: nat, child: Option<string>, why: Failure,
                  utf8: Utf8)
    requires Closed(schema) && (child.Some? ==> child.value in schema)
    requires 0 < start <= |data| && RefusedBelow(schema, |data|, utf8)
    ensures BodyFaulty(schema, size, data[start..], child, why, utf8)
        <==> if start + size > |data| then why == ContextTruncated
             else PayloadSpec(schema, data[start..start + size], child, utf8) == Err(why)
  {
    if start + size <= |data| {
      var raw := data[start..start + size];
      assert data[start..][..size] == raw;
      assert PayloadFaulty(schema, raw, child, why, utf8) <==> PayloadSpec(schema, raw, child, utf8) == Err(why);
    }
  }

  /** Why the length at `mid`, or the payload after it, fails, if it does. */
  predicate LengthFails(schema: Schema, data: seq<byte>, mid: nat, child: Option<string>, why: Failure, utf8: Utf8)
    requires Closed(schema) && (child.Some? ==> child.value in schema)
  {
    var size := ReadVarint(data, mid);
    if size.Err? then size.error == why
    else if size.value.1 + size.value.0 > |data| then why == ContextTruncated
    else PayloadSpec(schema, data[size.value.1..size.value.1 + size.value.0], child, utf8) == Err(why)
  }

  ghost function BodyClaim(schema: Schema, child: Option<string>, why: Failure, utf8: Utf8): Claim
    requires Closed(schema) && (child.Some? ==> child.value in schema)
  {
    (size: nat, body: seq<byte>) => BodyFaulty(schema, size, body, child, why, utf8)
  }

  lemma LengthBegins(schema: Schema, tail: seq<byte>, child: Option<string>, why: Failure, utf8: Utf8)
    requires Closed(schema) && (child.Some? ==> child.value in schema)
    ensures LengthFaulty(schema, tail, child, why, utf8)
       <==> NoVarint(tail, why) || Begins(tail, BodyClaim(schema, child, why, utf8))
  {
  }

  lemma LengthExact(schema: Schema, data: seq<byte>, mid: nat, child: Option<string>, why: Failure, utf8: Utf8)
    requires Closed(schema) && (child.Some? ==> child.value in schema)
    requires 0 < mid <= |data| && RefusedBelow(schema, |data|, utf8)
    ensures LengthFaulty(schema, data[mid..], child, why, utf8) <==> LengthFails(schema, data, mid, child, why, utf8)
  {
    TailRefused(data, mid, 0, why);
    BeginsExact(data, mid, BodyClaim(schema, child, why, utf8));
    LengthBegins(schema, data[mid..], child, why, utf8);
    var read := ReadVarint(data, mid);
    if read.Ok? {
      BodyExact(schema, data, read.value.1, read.value.0, child, why, utf8);
    }
  }

  lemma TagExact(schema: Schema, data: seq<byte>, offset: nat, shape: string, fields: map<string, Node>,
                 taken: set<nat>, v: nat, mid: nat, why: Failure, utf8: Utf8)
    requires WellFormed(schema) && shape in schema && offset < |data| && RefusedBelow(schema, |data|, utf8)
    requires Took(schema[shape], fields, taken)
    requires ReadVarint(data, offset) == Ok((v, mid))
    ensures TagFaulty(schema, schema[shape], taken, v, data[mid..], why, utf8)
        <==> FailsHere(schema, data, offset, shape, fields, why, utf8)
  {
    var expected := schema[shape];
    if v / 8 in expected {
      TookName(expected, fields, taken, v / 8);
      LengthExact(schema, data, mid, expected[v / 8].child, why, utf8);
    }
  }

  ghost function TagClaim(schema: Schema, expected: map<nat, Field>, taken: set<nat>, why: Failure, utf8: Utf8): Claim
    requires Closed(schema) && ChildrenKnown(schema, expected)
  {
    (v: nat, tail: seq<byte>) => TagFaulty(schema, expected, taken, v, tail, why, utf8)
  }

  lemma FaultyBegins(schema: Schema, expected: map<nat, Field>, taken: set<nat>, rest: seq<byte>, why: Failure,
                     utf8: Utf8)
    requires Closed(schema) && ChildrenKnown(schema, expected) && rest != []
    ensures Faulty(schema, expected, taken, rest, why, utf8)
       <==> NoVarint(rest, why) || Begins(rest, TagClaim(schema, expected, taken, why, utf8))
  {
  }

  lemma FaultExact(schema: Schema, data: seq<byte>, offset: nat, shape: string, fields: map<string, Node>,
                   taken: set<nat>, why: Failure, utf8: Utf8)
    requires WellFormed(schema) && shape in schema && offset <= |data| && RefusedBelow(schema, |data|, utf8)
    requires Took(schema[shape], fields, taken)
    ensures Faulty(schema, schema[shape], taken, data[offset..], why, utf8)
        <==> FailsHere(schema, data, offset, shape, fields, why, utf8)
  {
    var expected, rest := schema[shape], data[offset..];
    if offset == |data| {
      TookAll(expected, fields, taken);
    } else {
      TailRefused(data, offset, 0, why);
      BeginsExact(data, offset, TagClaim(schema, expected, taken, why, utf8));
      FaultyBegins(schema, expected, taken, rest, why, utf8);
      var read := ReadVarint(data, offset);
      if read.Ok? {
        TagExact(schema, data, offset, shape, fields, taken, read.value.0, read.value.1, why, utf8);
      }
    }
  }

  lemma FailureStays(schema: Schema, data: seq<byte>, offset: nat, shape: string, fields: map<string, Node>,
                     why: Failure, utf8: Utf8)
    requires Closed(schema) && shape in schema && offset <= |data|
    requires FailsHere(schema, data, offset, shape, fields, why, utf8)
    ensures FieldsFrom(schema, data, offset, shape, fields, utf8) == Err(why)
  {
  }

  /** A decoder that fails, but not here, has read a chunk here. */
  lemma FailsLater(schema: Schema, data: seq<byte>, offset: nat, shape: string, fields: map<string, Node>,
                   why: Failure, utf8: Utf8) returns (c: Chunk, end: nat, node: Node)
    requires WellFormed(schema) && shape in schema && offset <= |data|
    requires FieldsFrom(schema, data, offset, shape, fields, utf8) == Err(why)
    requires !FailsHere(schema, data, offset, shape, fields, why, utf8)
    ensures offset < end <= |data| && data[offset..] == c.Bytes() + data[end..]
    ensures AcceptedChunk(schema, schema[shape], c, utf8) && schema[shape][c.number].name !in fields
    ensures FieldsFrom(schema, data, end, shape, fields[schema[shape][c.number].name := node], utf8) == Err(why)
  {
    var expected := schema[shape];
    var h := HeaderAt(expected, data, offset, fields.Keys).value;
    c := ChunkOfHeader(expected, data, offset, fields.Keys);
    end := h.end;
    node := PayloadSpec(schema, c.payload, expected[c.number].child, utf8).value;
    PayloadExact(schema, c.payload, expected[c.number].child, node, utf8);
    assert data[offset..] == data[offset..end] + data[end..];
  }

  lemma TookMore(expected: map<nat, Field>, fields: map<string, Node>, taken: set<nat>, n: nat, node: Node)
    requires DistinctNames(expected) && Took(expected, fields, taken) && n in expected
    ensures Took(expected, fields[expected[n].name := node], taken + {n})
  {
  }

  /** The chunks are accepted, stand for fields not in `taken`, and what follows them is faulty. */
  ghost predicate RejectedAfter(schema: Schema, expected: map<nat, Field>, taken: set<nat>, data: seq<byte>,
                                chunks: seq<Chunk>, rest: seq<byte>, why: Failure, utf8: Utf8)
    requires Closed(schema) && ChildrenKnown(schema, expected)
  {
    && data == Flatten(chunks) + rest && AcceptedChunks(schema, expected, chunks, utf8) && Numbers(chunks) !! taken
    && Faulty(schema, expected, taken + Numbers(chunks), rest, why, utf8)
  }

  lemma RejectedPush(schema: Schema, expected: map<nat, Field>, taken: set<nat>, c: Chunk, tail: seq<byte>,
                     chunks: seq<Chunk>, rest: seq<byte>, why: Failure, utf8: Utf8)
    requires Closed(schema) && ChildrenKnown(schema, expected) && AcceptedChunk(schema, expected, c, utf8)
    requires c.number !in taken && RejectedAfter(schema, expected, taken + {c.number}, tail, chunks, rest, why, utf8)
    ensures RejectedAfter(schema, expected, taken, c.Bytes() + tail, [c] + chunks, rest, why, utf8)
  {
    var all := [c] + chunks;
    assert all[1..] == chunks;
    assert c.Bytes() + (Flatten(chunks) + rest) == c.Bytes() + Flatten(chunks) + rest;
    NumbersPush(c, chunks);
    assert taken + {c.number} + Numbers(chunks) == taken + Numbers(all);
    assert forall j :: 0 <= j < |chunks| ==> chunks[j].number in Numbers(chunks);
  }

  lemma NumbersPush(c: Chunk, chunks: seq<Chunk>)
    ensures Numbers([c] + chunks) == {c.number} + Numbers(chunks)
  {
    var all := [c] + chunks;
    assert all[0] == c;
    forall d
      ensures d in all <==> d == c || d in chunks
    {
      if d in chunks {
        var j :| 0 <= j < |chunks| && chunks[j] == d;
        assert all[j + 1] == d;
      }
    }
  }

  lemma RejectedPop(schema: Schema, expected: map<nat, Field>, taken: set<nat>, data: seq<byte>,
                    chunks: seq<Chunk>, rest: seq<byte>, why: Failure, utf8: Utf8)
    requires Closed(schema) && ChildrenKnown(schema, expected) && chunks != []
    requires RejectedAfter(schema, expected, taken, data, chunks, rest, why, utf8)
    ensures var c := chunks[0];
            && AcceptedChunk(schema, expected, c, utf8) && c.number !in taken && c.Bytes() <= data
            && RejectedAfter(schema, expected, taken + {c.number}, data[|c.Bytes()|..], chunks[1..], rest, why, utf8)
  {
    var c, tail := chunks[0], chunks[1..];
    AcceptedApart(schema, expected, chunks, utf8);
    assert chunks == [c] + tail;
    NumbersPush(c, tail);
    assert data == c.Bytes() + (Flatten(tail) + rest);
    assert taken + Numbers(chunks) == taken + {c.number} + Numbers(tail);
  }

  lemma AcceptedApart(schema: Schema, expected: map<nat, Field>, chunks: seq<Chunk>, utf8: Utf8)
    requires Closed(schema) && ChildrenKnown(schema, expected) && chunks != []
    requires AcceptedChunks(schema, expected, chunks, utf8)
    ensures AcceptedChunk(schema, expected, chunks[0], utf8) && AcceptedChunks(schema, expected, chunks[1..], utf8)
    ensures chunks[0].number !in Numbers(chunks[1..])
  {
    var tail := chunks[1..];
    forall j | 0 <= j < |tail|
      ensures AcceptedChunk(schema, expected, tail[j], utf8) && tail[j].number != chunks[0].number
    {
      assert tail[j] == chunks[j + 1];
    }
  }

  lemma {:induction false} FieldsRejected(schema: Schema, data: seq<byte>, offset: nat, shape: string,
                                          fields: map<string, Node>, taken: set<nat>, why: Failure, utf8: Utf8)
      returns (chunks: seq<Chunk>, rest: seq<byte>)
    requires WellFormed(schema) && shape in schema && offset <= |data| && RefusedBelow(schema, |data|, utf8)
    requires Took(schema[shape], fields, taken)
    requires FieldsFrom(schema, data, offset, shape, fields, utf8) == Err(why)
    ensures RejectedAfter(schema, schema[shape], taken, data[offset..], chunks, rest, why, utf8)
    decreases |data| - offset
  {
    if FailsHere(schema, data, offset, shape, fields, why, utf8) {
      FaultExact(schema, data, offset, shape, fields, taken, why, utf8);
      chunks, rest := [], data[offset..];
      assert taken + Numbers(chunks) == taken && Flatten(chunks) + rest == rest;
    } else {
      var c, end, node := FailsLater(schema, data, offset, shape, fields, why, utf8);
      TookName(schema[shape], fields, taken, c.number);
      TookMore(schema[shape], fields, taken, c.number, node);
      chunks, rest := FieldsRejected(schema, data, end, shape, fields[schema[shape][c.number].name := node],
                                     taken + {c.number}, why, utf8);
      RejectedPush(schema, schema[shape], taken, c, data[end..], chunks, rest, why, utf8);
      chunks := [c] + chunks;
    }
  }

  lemma {:induction false} FieldsRefuse(schema: Schema, data: seq<byte>, offset: nat, shape: string,
                                        fields: map<string, Node>, taken: set<nat>, chunks: seq<Chunk>,
                                        rest: seq<byte>, why: Failure, utf8: Utf8)
    requires WellFormed(schema) && shape in schema && offset <= |data| && RefusedBelow(schema, |data|, utf8)
    requires Took(schema[shape], fields, taken)
    requires RejectedAfter(schema, schema[shape], taken, data[offset..], chunks, rest, why, utf8)
    ensures FieldsFrom(schema, data, offset, shape, fields, utf8) == Err(why)
    decreases |chunks|
  {
    if chunks == [] {
      assert taken + Numbers(chunks) == taken && Flatten(chunks) + rest == rest;
      FaultExact(schema, data, offset, shape, fields, taken, why, utf8);
      FailureStays(schema, data, offset, shape, fields, why, utf8);
    } else {
      var expected, c := schema[shape], chunks[0];
      RejectedPop(schema, expected, taken, data[offset..], chunks, rest, why, utf8);
      var end := offset + |c.Bytes()|;
      var node :| PayloadCarries(schema, c.payload, expected[c.number].child, node, utf8);
      PayloadExact(schema, c.payload, expected[c.number].child, node, utf8);
      TookName(expected, fields, taken, c.number);
      OneField(schema, data, offset, end, shape, fields, c, node, utf8);
      TookMore(expected, fields, taken, c.number, node);
      assert data[offset..][|c.Bytes()|..] == data[end..];
      FieldsRefuse(schema, data, end, shape, fields[expected[c.number].name := node], taken + {c.number}, chunks[1..],
                   rest, why, utf8);
    }
  }

  lemma ShorterRefused(schema: Schema, n: nat, utf8: Utf8)
    requires WellFormed(schema)
    ensures RefusedBelow(schema, n, utf8)
    decreases n, 0
  {
    forall raw: seq<byte>, child: Option<string>, why | |raw| < n && (child.Some? ==> child.value in schema)
      ensures PayloadFaulty(schema, raw, child, why, utf8) <==> PayloadSpec(schema, raw, child, utf8) == Err(why)
    {
      if child.Some? {
        RejectsExactly(schema, raw, child.value, why, utf8);
      }
    }
  }

  /** The decoder rejects a byte string for exactly the reason that is found behind its accepted chunks: the chunks may
      stand in any order, and a fault inside a field is found like one outside. */
  lemma RejectsExactly(schema: Schema, data: seq<byte>, shape: string, why: Failure, utf8: Utf8)
    requires WellFormed(schema) && shape in schema
    ensures WireMessageSpec(schema, data, shape, utf8) == Err(why) <==> Rejected(schema, data, shape, why, utf8)
    decreases |data|, 1
  {
    ShorterRefused(schema, |data|, utf8);
    assert data[0..] == data && Took(schema[shape], map[], {});
    if WireMessageSpec(schema, data, shape, utf8) == Err(why) {
      var chunks, rest := FieldsRejected(schema, data, 0, shape, map[], {}, why, utf8);
      assert {} + Numbers(chunks) == Numbers(chunks);
    }
    if Rejected(schema, data, shape, why, utf8) {
      var chunks, rest :| data == Flatten(chunks) + rest && AcceptedChunks(schema, schema[shape], chunks, utf8)
                          && Faulty(schema, schema[shape], Numbers(chunks), rest, why, utf8);
      assert {} + Numbers(chunks) == Numbers(chunks);
      FieldsRefuse(schema, data, 0, shape, map[], {}, chunks, rest, why, utf8);
    }
  }
}
