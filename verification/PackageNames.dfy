/** Protobuf package names as WIT package ids and output paths. */
module PackageNames {
  import opened Prelude
  import opened Text

  predicate IsLower(c: char) { 'a' <= c <= 'z' }

  predicate IsUpper(c: char) { 'A' <= c <= 'Z' }

  predicate IsDigit(c: char) { '0' <= c <= '9' }

  const KEYWORDS: set<string> := {
    "as", "async", "bool", "borrow", "char", "constructor", "enum", "export", "f32", "f64", "flags", "from",
    "error-context", "func", "future", "import", "include", "interface", "list", "map", "option", "own", "package",
    "record", "resource", "result", "s16", "s32", "s64", "s8", "static", "stream", "string", "tuple", "type", "u16",
    "u32", "u64", "u8", "use", "variant", "with", "world"
  }

  function EscapeKeyword(identifier: string): string {
    if identifier in KEYWORDS then "%" + identifier else identifier
  }

  /** `strings.TrimPrefix(s, "%")` */
  function TrimPercent(s: string): string {
    if s != [] && s[0] == '%' then s[1..] else s
  }

  lemma TrimEscaped(s: string)
    requires Without(s, '%')
    ensures TrimPercent(EscapeKeyword(s)) == s
  {
  }

  lemma EscapedWithout(s: string, c: char)
    requires Without(s, c) && c != '%'
    ensures Without(EscapeKeyword(s), c)
  {
  }

  // ----- segments -----

  const HEXADECIMAL: string := "0123456789abcdef"

  function EncodeChar(c: char): Option<string> {
    if (IsLower(c) && c != 'z') || IsDigit(c) then Some([c])
    else if c == 'z' then Some("zz")
    else if IsUpper(c) || c == '_' then Some("zx" + [HEXADECIMAL[c as int / 16], HEXADECIMAL[c as int % 16]])
    else None
  }

  function EncodeChars(s: string): Option<string> {
    if s == [] then Some([])
    else
      var head, tail := EncodeChar(s[0]), EncodeChars(s[1..]);
      if head.None? || tail.None? then None else Some(head.value + tail.value)
  }

  function EncodeSegment(s: string): Option<string> {
    if s == [] || IsDigit(s[0]) then None else EncodeChars(s)
  }

  method EncodePackageSegment(input: string) returns (r: Option<string>)
    ensures r == EncodeSegment(input)
  {
    if input == [] || IsDigit(input[0]) {
      return None;
    }
    var output := "";
    assert input[0..] == input;
    PrefixedTwice([], [], EncodeChars(input));
    for index := 0 to |input|
      invariant EncodeChars(input) == Prefixed(output, EncodeChars(input[index..]))
    {
      var current := input[index];
      assert input[index..][1..] == input[index + 1..];
      PrefixedTwice(output, EncodeChar(current).GetOr([]), EncodeChars(input[index + 1..]));
      if (IsLower(current) && current != 'z') || IsDigit(current) {
        output := output + [current];
      } else if current == 'z' {
        output := output + "zz";
      } else if IsUpper(current) || current == '_' {
        output := output + ("zx" + [HEXADECIMAL[current as int / 16], HEXADECIMAL[current as int % 16]]);
      } else {
        return None;
      }
    }
    assert output + [] == output;
    return Some(output);
  }

  /** The result of a loop that has produced `done` and whose remaining work gives `rest`. */
  function Prefixed<T>(done: seq<T>, rest: Option<seq<T>>): Option<seq<T>> {
    if rest.None? then None else Some(done + rest.value)
  }

  lemma PrefixedTwice<T>(a: seq<T>, b: seq<T>, rest: Option<seq<T>>)
    ensures Prefixed(a, Prefixed(b, rest)) == Prefixed(a + b, rest)
    ensures Prefixed([], rest) == rest
  {
    if rest.Some? {
      assert a + (b + rest.value) == (a + b) + rest.value;
      assert [] + rest.value == rest.value;
    }
  }

  /** The encoding uses only lower-case letters and digits. */
  predicate Plain(s: string) {
    forall j :: 0 <= j < |s| ==> IsLower(s[j]) || IsDigit(s[j])
  }

  lemma EncodeCharPlain(c: char)
    requires EncodeChar(c).Some?
    ensures Plain(EncodeChar(c).value) && EncodeChar(c).value != []
  {
  }

  lemma HexPlain(n: nat)
    requires n < 16
    ensures Plain([HEXADECIMAL[n]]) && HexValue(HEXADECIMAL[n]) == n
  {
  }

  lemma {:induction false} EncodeCharsPlain(s: string)
    requires EncodeChars(s).Some?
    ensures Plain(EncodeChars(s).value)
    ensures s != [] ==> EncodeChars(s).value != []
  {
    if s != [] {
      EncodeCharPlain(s[0]);
      EncodeCharsPlain(s[1..]);
    }
  }

  function HexValue(c: char): nat {
    if IsDigit(c) then c as int - '0' as int else if c >= 'a' then c as int - 'a' as int + 10 else 0
  }

  /** The character at the front of an encoding and the encoding that follows it. */
  function DecodeFront(t: string): (char, string)
    requires t != []
  {
    if |t| >= 2 && t[..2] == "zz" then ('z', t[2..])
    else if |t| >= 4 && t[..2] == "zx" && HexValue(t[2]) < 8 && HexValue(t[3]) < 16 then
      ((16 * HexValue(t[2]) + HexValue(t[3])) as char, t[4..])
    else (t[0], t[1..])
  }

  lemma DecodeEncodedFront(c: char, tail: string)
    requires EncodeChar(c).Some?
    ensures EncodeChar(c).value + tail != []
    ensures DecodeFront(EncodeChar(c).value + tail) == (c, tail)
  {
    var t := EncodeChar(c).value + tail;
    if IsUpper(c) || c == '_' {
      HexPlain(c as int / 16);
      HexPlain(c as int % 16);
      assert t[..2] == "zx" && t[4..] == tail;
    } else if c == 'z' {
      assert t[..2] == "zz" && t[2..] == tail;
    } else {
      assert t[0] == c && t[1..] == tail;
    }
  }

  function DecodeSegment(t: string): string
    decreases |t|
  {
    if t == [] then []
    else [DecodeFront(t).0] + DecodeSegment(DecodeFront(t).1)
  }

  /** Decoding an encoded segment gives the segment back. */
  lemma {:induction false} SegmentRoundTrip(s: string)
    requires EncodeChars(s).Some?
    ensures DecodeSegment(EncodeChars(s).value) == s
  {
    if s != [] {
      SegmentRoundTrip(s[1..]);
      DecodeEncodedFront(s[0], EncodeChars(s[1..]).value);
    }
  }

  // ----- package ids -----

  datatype PackageId = PackageId(namespace: string, name: string) {
    function ToString(): string { namespace + ":" + name }

    function OutputDirectory(): string { TrimPercent(namespace) + "/" + TrimPercent(name) }
  }

  function EncodeAll(parts: seq<string>): Option<seq<string>> {
    if parts == [] then Some([])
    else
      var head, tail := EncodeSegment(parts[0]), EncodeAll(parts[1..]);
      if head.None? || tail.None? then None else Some([head.value] + tail.value)
  }

  /** The id of a package, or none when the package cannot be represented. */
  function IdOf(protobufPackage: string): Option<PackageId> {
    var parts := Split(protobufPackage, '.');
    if |parts| < 2 then None
    else
      var namespace, name := EncodeSegment(parts[0]), EncodeAll(parts[1..]);
      if namespace.None? || name.None? then None
      else Some(PackageId(EscapeKeyword(namespace.value), EscapeKeyword(Join(name.value, '-'))))
  }

  method ToPackageId(protobufPackage: string) returns (r: Option<PackageId>)
    ensures r == IdOf(protobufPackage)
  {
    var parts := Split(protobufPackage, '.');
    if |parts| < 2 {
      return None;
    }
    var namespace := EncodePackageSegment(parts[0]);
    if namespace.None? {
      return None;
    }
    var rest := parts[1..];
    var encodedName: seq<string> := [];
    assert rest[0..] == rest;
    PrefixedTwice([], [], EncodeAll(rest));
    for i := 0 to |rest|
      invariant EncodeAll(rest) == Prefixed(encodedName, EncodeAll(rest[i..]))
    {
      assert rest[i..][1..] == rest[i + 1..];
      var encoded := EncodePackageSegment(rest[i]);
      if encoded.None? {
        return None;
      }
      PrefixedTwice(encodedName, [encoded.value], EncodeAll(rest[i + 1..]));
      encodedName := encodedName + [encoded.value];
    }
    assert encodedName + [] == encodedName;
    return Some(PackageId(EscapeKeyword(namespace.value), EscapeKeyword(Join(encodedName, '-'))));
  }

  // ----- injectivity -----

  lemma {:induction false} EncodeAllPlain(parts: seq<string>)
    requires EncodeAll(parts).Some?
    ensures |EncodeAll(parts).value| == |parts|
    ensures forall j :: 0 <= j < |parts| ==> EncodeSegment(parts[j]) == Some(EncodeAll(parts).value[j])
    ensures forall j :: 0 <= j < |parts| ==> Plain(EncodeAll(parts).value[j])
  {
    if parts != [] {
      EncodeAllPlain(parts[1..]);
      EncodeCharsPlain(parts[0]);
      assert forall j :: 0 < j < |parts| ==> parts[j] == parts[1..][j - 1];
    }
  }

  lemma SegmentInjective(s: string, t: string)
    requires EncodeSegment(s).Some? && EncodeSegment(s) == EncodeSegment(t)
    ensures s == t
  {
    SegmentRoundTrip(s);
    SegmentRoundTrip(t);
  }

  predicate PlainOrHyphen(s: string) {
    forall j :: 0 <= j < |s| ==> IsLower(s[j]) || IsDigit(s[j]) || s[j] == '-'
  }

  lemma {:induction false} JoinPlain(parts: seq<string>)
    requires forall j :: 0 <= j < |parts| ==> Plain(parts[j])
    ensures PlainOrHyphen(Join(parts, '-'))
  {
    if |parts| > 1 {
      JoinPlain(parts[1..]);
      assert Plain(parts[0]) && PlainOrHyphen(parts[0] + ['-']);
    } else if |parts| == 1 {
      assert Plain(parts[0]);
    }
  }

  /** What an accepted package name is encoded to before keywords are escaped. */
  lemma Unescaped(p: string) returns (parts: seq<string>, namespace: string, names: seq<string>)
    requires IdOf(p).Some?
    ensures parts == Split(p, '.') && |parts| >= 2
    ensures EncodeSegment(parts[0]) == Some(namespace) && EncodeAll(parts[1..]) == Some(names)
    ensures Plain(namespace) && Without(namespace, '%') && Without(Join(names, '-'), '%')
    ensures IdOf(p) == Some(PackageId(EscapeKeyword(namespace), EscapeKeyword(Join(names, '-'))))
  {
    parts := Split(p, '.');
    namespace, names := EncodeSegment(parts[0]).value, EncodeAll(parts[1..]).value;
    EncodeCharsPlain(parts[0]);
    EncodeAllPlain(parts[1..]);
    JoinPlain(names);
  }

  /** Both halves of the id, without keyword escapes, determine the package. */
  lemma TrimmedInjective(p: string, q: string)
    requires IdOf(p).Some? && IdOf(q).Some?
    requires TrimPercent(IdOf(p).value.namespace) == TrimPercent(IdOf(q).value.namespace)
    requires TrimPercent(IdOf(p).value.name) == TrimPercent(IdOf(q).value.name)
    ensures p == q
  {
    var ps, n, ns := Unescaped(p);
    var qs, m, ms := Unescaped(q);
    TrimEscaped(n);
    TrimEscaped(m);
    TrimEscaped(Join(ns, '-'));
    TrimEscaped(Join(ms, '-'));
    SegmentInjective(ps[0], qs[0]);
    EncodeAllPlain(ps[1..]);
    EncodeAllPlain(qs[1..]);
    JoinInjective(ns, ms, '-');
    forall j | 0 <= j < |ns|
      ensures ps[1..][j] == qs[1..][j]
    {
      SegmentInjective(ps[1..][j], qs[1..][j]);
    }
    assert ps[1..] == qs[1..];
    assert ps == [ps[0]] + ps[1..] && qs == [qs[0]] + qs[1..];
    JoinSplit(p, '.');
    JoinSplit(q, '.');
  }

  /** Separating a head without the separator from the rest. */
  lemma HeadInjective(a: string, x: string, b: string, y: string, c: char)
    requires Without(a, c) && Without(b, c) && a + [c] + x == b + [c] + y
    ensures a == b && x == y
  {
    if |a| < |b| {
      ShorterHeadDiffers(a, x, b, y, c);
    } else if |b| < |a| {
      ShorterHeadDiffers(b, y, a, x, c);
    } else {
      assert (a + [c] + x)[..|a|] == a && (b + [c] + y)[..|b|] == b;
      assert (a + [c] + x)[|a| + 1..] == x && (b + [c] + y)[|b| + 1..] == y;
    }
  }

  lemma ShorterHeadDiffers(a: string, x: string, b: string, y: string, c: char)
    requires Without(b, c) && |a| < |b|
    ensures a + [c] + x != b + [c] + y
  {
    assert (a + [c] + x)[|a|] == c && (b + [c] + y)[|a|] == b[|a|];
  }

  /** Two accepted packages never share a WIT package name. */
  lemma PackageIdInjective(p: string, q: string)
    requires IdOf(p).Some? && IdOf(q).Some? && IdOf(p).value.ToString() == IdOf(q).value.ToString()
    ensures p == q
  {
    var _, n, _ := Unescaped(p);
    var _, m, _ := Unescaped(q);
    EscapedWithout(n, ':');
    EscapedWithout(m, ':');
    HeadInjective(EscapeKeyword(n), IdOf(p).value.name, EscapeKeyword(m), IdOf(q).value.name, ':');
    TrimmedInjective(p, q);
  }

  /** Nor an output directory, although there the keyword escapes are gone. */
  lemma OutputDirectoryInjective(p: string, q: string)
    requires IdOf(p).Some? && IdOf(q).Some? && IdOf(p).value.OutputDirectory() == IdOf(q).value.OutputDirectory()
    ensures p == q
  {
    var _, n, ns := Unescaped(p);
    var _, m, ms := Unescaped(q);
    TrimEscaped(n);
    TrimEscaped(m);
    HeadInjective(n, TrimPercent(IdOf(p).value.name), m, TrimPercent(IdOf(q).value.name), '/');
    TrimmedInjective(p, q);
  }
}
