/** What a signature base says line by line, and what trimming leaves of a header value. */
module SignatureText {
  import opened Prelude
  import opened Text
  import opened SignatureBase

  // ----- trimming -----

  predicate SpaceOrTab(c: char) { c == ' ' || c == '\t' }

  /** `t` is the part of `s` from `i` to `k`, with spaces and tabs around it and none at its own ends. */
  predicate TrimmedAt(s: string, t: string, i: nat, k: nat) {
    && i <= k <= |s| && t == s[i..k]
    && (forall j :: 0 <= j < |s| && (j < i || k <= j) ==> SpaceOrTab(s[j]))
    && (i < k ==> !SpaceOrTab(s[i]) && !SpaceOrTab(s[k - 1]))
  }

  ghost predicate Trimmed(s: string, t: string) { exists i, k :: TrimmedAt(s, t, i, k) }

  lemma {:induction false} StripLeftAt(s: string) returns (k: nat)
    ensures k <= |s| && StripLeft(s) == s[k..] && forall j :: 0 <= j < k ==> SpaceOrTab(s[j])
    ensures k < |s| ==> !SpaceOrTab(s[k])
  {
    if s != "" && Blank(s[0]) {
      k := StripLeftAt(s[1..]);
      k := k + 1;
      assert forall j :: 0 < j < k ==> s[j] == s[1..][j - 1];
    } else {
      k := 0;
    }
  }

  lemma {:induction false} StripRightAt(s: string) returns (k: nat)
    ensures k <= |s| && StripRight(s) == s[..k] && forall j :: k <= j < |s| ==> SpaceOrTab(s[j])
    ensures k > 0 ==> !SpaceOrTab(s[k - 1])
  {
    if s != "" && Blank(s[|s| - 1]) {
      k := StripRightAt(s[..|s| - 1]);
    } else {
      k := |s|;
    }
  }

  /** Trimming takes the spaces and tabs from both ends and nothing else. */
  lemma StripTrims(s: string)
    ensures Trimmed(s, Strip(s))
  {
    var i := StripLeftAt(s);
    var k := StripRightAt(s[i..]);
    assert s[i..][..k] == s[i..i + k];
    assert forall j :: i + k <= j < |s| ==> s[j] == s[i..][j - i];
    assert TrimmedAt(s, Strip(s), i, i + k);
  }

  /** Each accepted header is mapped to its trimmed value. */
  lemma HeadersTrimmed(headers: seq<(string, string)>, lower: string -> string, i: nat)
    requires i < |headers| && Normalized(headers, lower, map[]).Ok?
    ensures var m := Normalized(headers, lower, map[]).value;
            lower(headers[i].0) in m && Trimmed(headers[i].1, m[lower(headers[i].0)])
  {
    NormalizedExactly(headers, lower);
    StripTrims(headers[i].1);
  }

  /** Small letters, digits and hyphens, and at least one of them. */
  predicate HeaderKey(s: string) {
    s != "" && forall j :: 0 <= j < |s| ==> 'a' <= s[j] <= 'z' || '0' <= s[j] <= '9' || s[j] == '-'
  }

  /** Headers are refused, always for their format, unless their names fold to different keys and no value holds a
      carriage return or line feed. */
  lemma HeadersAcceptedExactly(headers: seq<(string, string)>, lower: string -> string)
    ensures var r := Normalized(headers, lower, map[]);
            && (r.Ok? <==>
                && (forall i :: 0 <= i < |headers| ==> HeaderKey(lower(headers[i].0)))
                && (forall i, j :: 0 <= i < j < |headers| ==> lower(headers[i].0) != lower(headers[j].0))
                && (forall i :: 0 <= i < |headers| ==> '\r' !in headers[i].1 && '\n' !in headers[i].1))
            && (r.Err? ==> r.error == HeaderFormat)
  {
    NormalizedExactly(headers, lower);
    HeaderErrors(headers, lower, map[]);
    forall i | 0 <= i < |headers|
      ensures HeaderName(lower(headers[i].0)) <==> HeaderKey(lower(headers[i].0))
      ensures OneLine(headers[i].1) <==> '\r' !in headers[i].1 && '\n' !in headers[i].1
    {
    }
  }

  lemma {:induction false} HeaderErrors(headers: seq<(string, string)>, lower: string -> string, seen: Headers)
    ensures Normalized(headers, lower, seen).Err? ==> Normalized(headers, lower, seen).error == HeaderFormat
    decreases |headers|
  {
    if headers != [] {
      HeaderErrors(headers[1..], lower, seen[lower(headers[0].0) := Strip(headers[0].1)]);
    }
  }

  // ----- lines -----

  /** The value that a request gives a component. */
  predicate Gives(request: Request, headers: Headers, name: string, value: string) {
    || (name == "@method" && value == request.targetMethod)
    || (name == "@target-uri" && value == request.targetUri)
    || (!("@" <= name) && name in headers && value == headers[name])
  }

  ghost predicate Given(request: Request, headers: Headers, name: string) {
    exists value :: Gives(request, headers, name, value)
  }

  lemma CoveredGives(request: Request, headers: Headers, name: string)
    ensures Covered(request, headers, name).Some? <==> Given(request, headers, name)
    ensures var covered := Covered(request, headers, name);
            covered.Some? ==> Gives(request, headers, name, covered.value)
  {
    var covered := Covered(request, headers, name);
    assert "@" <= name <==> name != "" && name[0] == '@';
    assert covered.Some? ==> Gives(request, headers, name, covered.value);
    if value :| Gives(request, headers, name, value) {
      assert Covered(request, headers, name) == Some(value);
    }
  }

  /** No value breaks a line. */
  predicate SingleLines(request: Request, headers: Headers, parameters: string) {
    && NormalHeaders(headers) && Without(parameters, '\n')
    && Without(request.targetMethod, '\n') && Without(request.targetUri, '\n')
  }

  /** The line names the component in quotes and gives its value. */
  ghost predicate TellsOf(request: Request, headers: Headers, line: string, name: string) {
    exists value :: Gives(request, headers, name, value) && line == "\"" + name + "\": " + value
  }

  /** The lines tell of the components in order. */
  ghost predicate TellOf(request: Request, headers: Headers, lines: seq<string>, components: seq<string>) {
    |lines| == |components| && forall k :: 0 <= k < |components| ==> TellsOf(request, headers, lines[k], components[k])
  }

  lemma {:induction false} LinesTell(r: Request, h: Headers, c: seq<string>)
    ensures Lines(r, h, c).Some? <==> forall k :: 0 <= k < |c| ==> Given(r, h, c[k])
    ensures Lines(r, h, c).Some? ==> TellOf(r, h, Lines(r, h, c).value, c)
    decreases |c|
  {
    if c != [] {
      LinesTell(r, h, c[1..]);
      CoveredGives(r, h, c[0]);
      assert forall k :: 0 < k < |c| ==> c[k] == c[1..][k - 1];
      assert forall k :: 0 <= k < |c[1..]| ==> c[1..][k] == c[k + 1];
      if Lines(r, h, c).Some? {
        assert TellsOf(r, h, Lines(r, h, c).value[0], c[0]);
      }
    }
  }

  lemma LineSingle(r: Request, h: Headers, p: string, line: string, name: string)
    requires SingleLines(r, h, p) && TellsOf(r, h, line, name)
    ensures Without(line, '\n')
  {
  }

  /** A base exists exactly when the request gives every component a value. Where no value breaks a line, the lines of
      the base tell of the components in order and then of the parameters. */
  lemma BaseTells(r: Request, h: Headers, c: seq<string>, p: string)
    ensures Base(r, h, c, p).Ok? <==> forall k :: 0 <= k < |c| ==> Given(r, h, c[k])
    ensures Base(r, h, c, p).Err? ==> Base(r, h, c, p).error == UnsignedComponent
    ensures Base(r, h, c, p).Ok? && SingleLines(r, h, p) ==>
              var lines := Split(Base(r, h, c, p).value, '\n');
              |lines| == |c| + 1 && TellOf(r, h, lines[..|c|], c) && lines[|c|] == "\"@signature-params\": " + p
  {
    LinesTell(r, h, c);
    if Base(r, h, c, p).Ok? && SingleLines(r, h, p) {
      var lines := Lines(r, h, c).value + ["\"@signature-params\": " + p];
      forall k | 0 <= k < |c|
        ensures Without(lines[k], '\n')
      {
        LineSingle(r, h, p, lines[k], c[k]);
      }
      assert lines[|c|] == Line("@signature-params", p);
      SplitJoin(lines, '\n');
      assert lines[..|c|] == Lines(r, h, c).value;
    }
  }
}
