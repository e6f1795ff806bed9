/** The text of a WIT type determines the type: keyword escapes keep message names apart from built-in types. */
module TypeText {
  import opened Prelude
  import opened PackageNames
  import opened Text
  import opened Wit
  import opened Descriptors
  import opened Collect
  import opened Schema
  import opened SchemaSound

  /** The type as the generator writes it. */
  function TextOf(t: WitType): string {
    match t
    case Scalar(text) => text
    case Named(identifier) => identifier
    case ListOf(element) => "list<" + TextOf(element) + ">"
    case OptionOf(element) => "option<" + TextOf(element) + ">"
  }

  const SCALARS: seq<string> := ["bool", "string", "list<u8>", "f32", "f64", "s32", "u32", "s64", "u64"]

  /** Types a schema can hold. */
  predicate Writable(t: WitType) {
    match t
    case Scalar(text) => text in SCALARS
    case Named(identifier) => IsIdentifier(identifier)
    case ListOf(element) => Writable(element)
    case OptionOf(element) => Writable(element)
  }

  predicate Unbracketed(s: string) { Without(s, '<') }

  lemma IdentifierUnbracketed(s: string)
    requires IsIdentifier(s)
    ensures Unbracketed(s) && s != []
  {
  }

  /** No identifier is a keyword. */
  lemma KeywordIsNoIdentifier(s: string)
    requires s in KEYWORDS && s != [] && s[0] != '%'
    ensures !IsIdentifier(s)
  {
  }

  lemma ScalarIsNoIdentifier(text: string)
    requires text in SCALARS || text == "u8"
    ensures !IsIdentifier(text)
  {
    if text == "list<u8>" {
      assert text[4] == '<';
      if IsIdentifier(text) {
        IdentifierUnbracketed(text);
      }
    } else {
      KeywordIsNoIdentifier(text);
    }
  }

  lemma ListText(t: WitType)
    requires t.ListOf? || t.OptionOf?
    ensures !Unbracketed(TextOf(t))
    ensures t.ListOf? ==> TextOf(t)[0] == 'l' && (TextOf(t) == "list<u8>" ==> TextOf(t.element) == "u8")
    ensures t.OptionOf? ==> TextOf(t)[0] == 'o'
  {
    var inner := TextOf(t.element);
    if t.ListOf? {
      assert TextOf(t)[4] == '<';
      if TextOf(t) == "list<u8>" {
        assert inner == TextOf(t)[5..|TextOf(t)| - 1] == "u8";
      }
    } else {
      assert TextOf(t)[6] == '<';
    }
  }

  lemma NothingReadsU8(t: WitType)
    requires Writable(t)
    ensures TextOf(t) != "u8"
  {
  }

  lemma ScalarText(text: string, t: WitType)
    requires text in SCALARS && Writable(t) && TextOf(t) == text
    ensures t == Scalar(text)
  {
    match t
    case Scalar(_) =>
    case Named(identifier) => ScalarIsNoIdentifier(text);
    case ListOf(element) =>
      ListText(t);
      NothingReadsU8(element);
    case OptionOf(_) =>
      ListText(t);
  }

  lemma Inside(prefix: string, a: string, b: string)
    requires prefix + a + ">" == prefix + b + ">"
    ensures a == b
  {
    var s := prefix + a + ">";
    assert |a| == |b|;
    assert a == s[|prefix|..|s| - 1] == b;
  }

  /** Two types of a schema with the same text are the same type. */
  lemma {:induction false} TypeTextInjective(s: WitType, t: WitType)
    requires Writable(s) && Writable(t) && TextOf(s) == TextOf(t)
    ensures s == t
  {
    if s.Scalar? {
      ScalarText(s.text, t);
    } else if t.Scalar? {
      ScalarText(t.text, s);
    } else if s.Named? || t.Named? {
      NamedText(s, t);
    } else {
      ListText(s);
      ListText(t);
      if s.ListOf? && t.ListOf? {
        Inside("list<", TextOf(s.element), TextOf(t.element));
        TypeTextInjective(s.element, t.element);
      } else if s.OptionOf? && t.OptionOf? {
        Inside("option<", TextOf(s.element), TextOf(t.element));
        TypeTextInjective(s.element, t.element);
      } else {
        MixedTexts(s, t);
      }
    }
  }

  lemma MixedTexts(s: WitType, t: WitType)
    requires (s.ListOf? && t.OptionOf?) || (s.OptionOf? && t.ListOf?)
    ensures TextOf(s) != TextOf(t)
  {
    assert TextOf(s)[0] == (if s.ListOf? then 'l' else 'o');
    assert TextOf(t)[0] == (if t.ListOf? then 'l' else 'o');
  }

  lemma NamedText(s: WitType, t: WitType)
    requires !s.Scalar? && !t.Scalar? && (s.Named? || t.Named?) && Writable(s) && Writable(t) && TextOf(s) == TextOf(t)
    ensures s == t
  {
  }

  // ----- the types of a schema -----

  lemma TargetWritable(c: Context, f: FieldDescriptor)
    requires BaseFieldType(c, f).Ok? && forall m :: m in c.names ==> IsIdentifier(c.names[m])
    ensures Writable(BaseFieldType(c, f).value.typeId)
  {
  }

  lemma EntryWritable(c: Context, variants: Variants, f: FieldDescriptor)
    requires EntryOf(c, variants, f).Some? && forall m :: m in c.names ==> IsIdentifier(c.names[m])
    requires Real(f) && f.oneof.value.fullName in variants ==> IsIdentifier(variants[f.oneof.value.fullName].name)
    ensures Writable(EntryOf(c, variants, f).value.typeId)
  {
    if !Real(f) {
      TargetWritable(c, f);
    }
  }

  lemma RecordTypeWritable(c: Context, messages: seq<FullName>, oneofs: seq<OwnedOneof>, body: Body, i: nat, j: nat)
    requires Sources(c, messages) && Parts(c, messages, oneofs, body) && i < |body.records|
    requires j < |body.records[i].fields|
    ensures Writable(body.records[i].fields[j].typeId)
  {
    var f := EntryAt(c, messages, oneofs, body, i, j);
    if Real(f) {
      var k := VariantFor(c, messages, oneofs, body, body.records[i].fullName, f);
      VariantAt(c, messages, oneofs, body, k);
    }
    EntryWritable(c, ByFullName(body.variants), f);
  }

  lemma CaseWritable(c: Context, f: FieldDescriptor)
    requires CaseOf(c, f).Some? && CaseOf(c, f).value.typeId.Some?
    requires forall m :: m in c.names ==> IsIdentifier(c.names[m])
    ensures Writable(CaseOf(c, f).value.typeId.value)
  {
    TargetWritable(c, f);
  }

  /** The member behind a case. */
  lemma CaseAt(c: Context, o: OwnedOneof, j: nat) returns (f: FieldDescriptor)
    requires VariantOk(c, o) && j < |VariantOf(c, o).cases|
    ensures CaseOf(c, f) == Some(VariantOf(c, o).cases[j])
  {
    f := InNumberOrder(Members(c.registry, o))[j];
  }

  lemma CaseTypeWritable(c: Context, messages: seq<FullName>, oneofs: seq<OwnedOneof>, body: Body, i: nat, j: nat)
    requires Sources(c, messages) && Parts(c, messages, oneofs, body) && i < |body.variants|
    requires j < |body.variants[i].cases|
    requires body.variants[i].cases[j].typeId.Some?
    ensures Writable(body.variants[i].cases[j].typeId.value)
  {
    VariantAt(c, messages, oneofs, body, i);
    var f := CaseAt(c, oneofs[i], j);
    CaseWritable(c, f);
  }

  ghost predicate AllWritable(body: Body) {
    && (forall i, j :: 0 <= i < |body.records| && 0 <= j < |body.records[i].fields| ==>
          Writable(body.records[i].fields[j].typeId))
    && (forall i, j :: 0 <= i < |body.variants| && 0 <= j < |body.variants[i].cases|
                       && body.variants[i].cases[j].typeId.Some? ==>
          Writable(body.variants[i].cases[j].typeId.value))
  }

  /** Every type of a schema is one that its text determines. */
  lemma SchemaTypesWritable(r: Registry, package: FullName, paths: set<string>, schema: WitSchema)
    requires Linked(r) && IsSchemaOf(r, package, paths, schema)
    ensures AllWritable(Body(schema.records, schema.variants))
  {
    var needed := Needed(r, package, RequestedIn(r, paths));
    var c, messages := Context(r, NamesOf(package, needed)), Listed(needed);
    var body := Body(schema.records, schema.variants);
    NeededNamed(r, package, needed);
    AllTypesWritable(c, messages, SortedOneofs(r, messages), body);
  }

  lemma AllTypesWritable(c: Context, messages: seq<FullName>, oneofs: seq<OwnedOneof>, body: Body)
    requires Sources(c, messages) && Parts(c, messages, oneofs, body)
    ensures AllWritable(body)
  {
    forall i, j | 0 <= i < |body.records| && 0 <= j < |body.records[i].fields|
      ensures Writable(body.records[i].fields[j].typeId)
    {
      RecordTypeWritable(c, messages, oneofs, body, i, j);
    }
    forall i, j | 0 <= i < |body.variants| && 0 <= j < |body.variants[i].cases|
      && body.variants[i].cases[j].typeId.Some?
      ensures Writable(body.variants[i].cases[j].typeId.value)
    {
      CaseTypeWritable(c, messages, oneofs, body, i, j);
    }
  }
}
