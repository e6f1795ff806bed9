/** Splitting and joining text at a separator character. */
module Text {

  predicate Without(s: string, c: char) {
    forall j :: 0 <= j < |s| ==> s[j] != c
  }

  function Split(s: string, c: char): (parts: seq<string>)
    ensures |parts| > 0
  {
    if s == [] then [[]]
    else
      var rest := Split(s[1..], c);
      if s[0] == c then [[]] + rest else [[s[0]] + rest[0]] + rest[1..]
  }

  function Join(parts: seq<string>, c: char): string {
    if |parts| == 0 then []
    else if |parts| == 1 then parts[0]
    else parts[0] + [c] + Join(parts[1..], c)
  }

  predicate AllWithout(parts: seq<string>, c: char) {
    forall j :: 0 <= j < |parts| ==> Without(parts[j], c)
  }

  lemma {:induction false} SplitParts(s: string, c: char)
    ensures AllWithout(Split(s, c), c)
  {
    if s != [] {
      SplitParts(s[1..], c);
    }
  }

  lemma {:induction false} JoinSplit(s: string, c: char)
    ensures Join(Split(s, c), c) == s
  {
    if s != [] {
      var rest := Split(s[1..], c);
      JoinSplit(s[1..], c);
      if s[0] == c {
        assert ([[]] + rest)[1..] == rest;
      } else {
        assert ([[s[0]] + rest[0]] + rest[1..])[1..] == rest[1..];
      }
    }
  }

  /** Splitting at the separator after a separator-free head. */
  lemma {:induction false} SplitHead(head: string, tail: string, c: char)
    requires Without(head, c)
    ensures Split(head + [c] + tail, c) == [head] + Split(tail, c)
    ensures Split(head, c) == [head]
  {
    if head == [] {
      assert head + [c] + tail == [c] + tail;
    } else {
      SplitHead(head[1..], tail, c);
      assert (head + [c] + tail)[1..] == head[1..] + [c] + tail;
      assert [head[0]] + head[1..] == head;
    }
  }

  lemma {:induction false} SplitJoin(parts: seq<string>, c: char)
    requires parts != [] && AllWithout(parts, c)
    ensures Split(Join(parts, c), c) == parts
  {
    if |parts| == 1 {
      SplitHead(parts[0], [], c);
    } else {
      SplitJoin(parts[1..], c);
      SplitHead(parts[0], Join(parts[1..], c), c);
      assert [parts[0]] + parts[1..] == parts;
    }
  }

  /** Joining separator-free parts loses nothing. */
  lemma JoinInjective(a: seq<string>, b: seq<string>, c: char)
    requires a != [] && b != [] && AllWithout(a, c) && AllWithout(b, c) && Join(a, c) == Join(b, c)
    ensures a == b
  {
    SplitJoin(a, c);
    SplitJoin(b, c);
  }
}
