/** Which packages have a WIT package id, and how the id is read back. */
module PackageIds {
  import opened Prelude
  import opened Text
  import opened PackageNames

  /** A part of a package name that an id can carry: not empty, no digit in front, and only letters, digits and
      underscores. */
  predicate Part(s: string) {
    && s != "" && !('0' <= s[0] <= '9')
    && forall j :: 0 <= j < |s| ==> 'a' <= s[j] <= 'z' || 'A' <= s[j] <= 'Z' || '0' <= s[j] <= '9' || s[j] == '_'
  }

  lemma {:induction false} CharsEncoded(s: string)
    ensures EncodeChars(s).Some?
       <==> forall j :: 0 <= j < |s| ==> 'a' <= s[j] <= 'z' || 'A' <= s[j] <= 'Z' || '0' <= s[j] <= '9' || s[j] == '_'
  {
    if s != [] {
      CharsEncoded(s[1..]);
      assert forall j :: 0 < j < |s| ==> s[j] == s[1..][j - 1];
      assert forall j :: 0 <= j < |s[1..]| ==> s[1..][j] == s[j + 1];
    }
  }

  lemma SegmentEncoded(s: string)
    ensures EncodeSegment(s).Some? <==> Part(s)
  {
    CharsEncoded(s);
  }

  lemma {:induction false} AllEncoded(parts: seq<string>)
    ensures EncodeAll(parts).Some? <==> forall k :: 0 <= k < |parts| ==> Part(parts[k])
  {
    if parts != [] {
      SegmentEncoded(parts[0]);
      AllEncoded(parts[1..]);
      assert forall k :: 0 < k < |parts| ==> parts[k] == parts[1..][k - 1];
      assert forall k :: 0 <= k < |parts[1..]| ==> parts[1..][k] == parts[k + 1];
    }
  }

  /** A package has an id exactly when its name consists of two or more such parts. */
  lemma AcceptedExactly(p: string)
    ensures IdOf(p).Some? <==> var parts := Split(p, '.');
                               |parts| >= 2 && forall k :: 0 <= k < |parts| ==> Part(parts[k])
  {
    var parts := Split(p, '.');
    if |parts| >= 2 {
      SegmentEncoded(parts[0]);
      AllEncoded(parts[1..]);
      assert forall k :: 0 < k < |parts| ==> parts[k] == parts[1..][k - 1];
      assert forall k :: 0 <= k < |parts[1..]| ==> parts[1..][k] == parts[k + 1];
    }
  }

  // ----- reading an id -----

  function DecodeAll(names: seq<string>): seq<string> {
    seq(|names|, k requires 0 <= k < |names| => DecodeSegment(names[k]))
  }

  /** The package that two names without keyword escapes stand for: the parts of the second are joined by hyphens. */
  function ReadNames(namespace: string, name: string): string {
    Join([DecodeSegment(namespace)] + DecodeAll(Split(name, '-')), '.')
  }

  /** The package that an id stands for; `separator` is a colon in a package id and a slash in a directory. */
  function ReadId(text: string, separator: char): Option<string> {
    var halves := Split(text, separator);
    if |halves| != 2 then None else Some(ReadNames(TrimPercent(halves[0]), TrimPercent(halves[1])))
  }

  lemma {:induction false} DecodeEncoded(parts: seq<string>)
    requires EncodeAll(parts).Some?
    ensures DecodeAll(EncodeAll(parts).value) == parts
  {
    EncodeAllPlain(parts);
    var names := EncodeAll(parts).value;
    forall k | 0 <= k < |parts|
      ensures DecodeSegment(names[k]) == parts[k]
    {
      SegmentRoundTrip(parts[k]);
    }
  }

  lemma NamesRead(p: string) returns (namespace: string, name: string)
    requires IdOf(p).Some?
    ensures Plain(namespace) && PlainOrHyphen(name)
    ensures IdOf(p) == Some(PackageId(EscapeKeyword(namespace), EscapeKeyword(name)))
    ensures TrimPercent(EscapeKeyword(namespace)) == namespace && TrimPercent(EscapeKeyword(name)) == name
    ensures ReadNames(namespace, name) == p
  {
    var parts, encoded, names := Unescaped(p);
    namespace, name := encoded, Join(names, '-');
    EncodeAllPlain(parts[1..]);
    JoinPlain(names);
    TrimEscaped(namespace);
    TrimEscaped(name);
    assert AllWithout(names, '-');
    SplitJoin(names, '-');
    SegmentRoundTrip(parts[0]);
    DecodeEncoded(parts[1..]);
    assert [parts[0]] + parts[1..] == parts;
    JoinSplit(p, '.');
  }

  lemma HalvesRead(namespace: string, name: string, separator: char)
    requires Without(namespace, separator) && Without(name, separator)
    ensures Split(namespace + [separator] + name, separator) == [namespace, name]
  {
    SplitHead(namespace, name, separator);
    SplitHead(name, [], separator);
  }

  lemma PlainLetters(s: string)
    requires PlainOrHyphen(s)
    ensures Without(s, '/') && Without(s, '%') && TrimPercent(s) == s
  {
  }

  /** The text of an accepted package's id, with its keyword escapes, reads back as the package. */
  lemma IdReads(p: string)
    requires IdOf(p).Some?
    ensures ReadId(IdOf(p).value.ToString(), ':') == Some(p)
  {
    var namespace, name := NamesRead(p);
    EscapedWithout(namespace, ':');
    EscapedWithout(name, ':');
    HalvesRead(EscapeKeyword(namespace), EscapeKeyword(name), ':');
  }

  /** So does its output directory, where the keyword escapes are gone. */
  lemma DirectoryReads(p: string)
    requires IdOf(p).Some?
    ensures ReadId(IdOf(p).value.OutputDirectory(), '/') == Some(p)
    ensures Without(IdOf(p).value.OutputDirectory(), '%')
  {
    var namespace, name := NamesRead(p);
    PlainLetters(namespace);
    PlainLetters(name);
    assert IdOf(p).value.OutputDirectory() == namespace + ['/'] + name;
    HalvesRead(namespace, name, '/');
  }
}
