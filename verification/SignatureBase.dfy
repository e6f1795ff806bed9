/** Header normalisation and the signature base of the connector proof (section 2.5 of RFC 9421). */
module SignatureBase {
  import opened Prelude
  import opened Text

  datatype Rejection = HeaderFormat | UnsignedComponent

  datatype Request = Request(targetMethod: string, targetUri: string)

  // ----- normalised headers -----

  predicate NameChar(c: char) {
    'a' <= c <= 'z' || '0' <= c <= '9' || c == '-'
  }

  predicate HeaderName(s: string) {
    s != [] && forall j :: 0 <= j < |s| ==> NameChar(s[j])
  }

  predicate Blank(c: char) { c == ' ' || c == '\t' }

  function StripLeft(s: string): string {
    if s != [] && Blank(s[0]) then StripLeft(s[1..]) else s
  }

  function StripRight(s: string): string {
    if s != [] && Blank(s[|s| - 1]) then StripRight(s[..|s| - 1]) else s
  }

  function Strip(s: string): string { StripRight(StripLeft(s)) }

  predicate OneLine(s: string) {
    Without(s, '\r') && Without(s, '\n')
  }

  type Headers = map<string, string>

  /** Normalisation as a function of the header list; `lower` is the letter-case mapping of the platform. */
  function Normalized(headers: seq<(string, string)>, lower: string -> string, seen: Headers)
    : Result<Headers, Rejection>
  {
    if headers == [] then Ok(seen)
    else
      var (name, value) := headers[0];
      var key := lower(name);
      if !HeaderName(key) || key in seen || !OneLine(value) then Err(HeaderFormat)
      else Normalized(headers[1..], lower, seen[key := Strip(value)])
  }

  method NormalizedHeaders(headers: seq<(string, string)>, lower: string -> string)
      returns (r: Result<Headers, Rejection>)
    ensures r == Normalized(headers, lower, map[])
  {
    var result: Headers := map[];
    for i := 0 to |headers|
      invariant Normalized(headers, lower, map[]) == Normalized(headers[i..], lower, result)
    {
      var (name, value) := headers[i];
      assert headers[i..][0] == headers[i] && headers[i..][1..] == headers[i + 1..];
      var key := lower(name);
      if !HeaderName(key) || key in result || !OneLine(value) {
        return Err(HeaderFormat);
      }
      result := result[key := Strip(value)];
    }
    return Ok(result);
  }

  // ----- the base -----

  function Derived(request: Request, name: string): Option<string> {
    if name == "@method" then Some(request.targetMethod)
    else if name == "@target-uri" then Some(request.targetUri)
    else None
  }

  function Covered(request: Request, headers: Headers, name: string): Option<string> {
    if name != [] && name[0] == '@' then Derived(request, name)
    else if name in headers then Some(headers[name])
    else None
  }

  function Line(name: string, value: string): string {
    "\"" + name + "\": " + value
  }

  /** The lines of the covered components, or none when some component has no value. */
  function Lines(request: Request, headers: Headers, components: seq<string>): Option<seq<string>> {
    if components == [] then Some([])
    else
      var value, rest := Covered(request, headers, components[0]), Lines(request, headers, components[1..]);
      if value.None? || rest.None? then None else Some([Line(components[0], value.value)] + rest.value)
  }

  function Base(request: Request, headers: Headers, components: seq<string>, parameters: string)
    : Result<string, Rejection>
  {
    var lines := Lines(request, headers, components);
    if lines.None? then Err(UnsignedComponent)
    else Ok(Join(lines.value + [Line("@signature-params", parameters)], '\n'))
  }

  method SignatureBaseText(request: Request, headers: Headers, components: seq<string>, parameters: string)
    returns (r: Result<string, Rejection>)
    ensures r == Base(request, headers, components, parameters)
  {
    var lines: seq<string> := [];
    for i := 0 to |components|
      invariant Lines(request, headers, components[..i]) == Some(lines)
    {
      var name := components[i];
      var value := Covered(request, headers, name);
      LinesSnoc(request, headers, components[..i], name);
      assert components[..i] + [name] == components[..i + 1];
      if value.None? {
        LinesPrefix(request, headers, components, i + 1);
        return Err(UnsignedComponent);
      }
      lines := lines + [Line(name, value.value)];
    }
    assert components[..|components|] == components;
    lines := lines + [Line("@signature-params", parameters)];
    return Ok(Join(lines, '\n'));
  }

  lemma {:induction false} LinesSnoc(request: Request, headers: Headers, components: seq<string>, name: string)
    ensures var before, value := Lines(request, headers, components), Covered(request, headers, name);
            Lines(request, headers, components + [name])
            == if before.None? || value.None? then None else Some(before.value + [Line(name, value.value)])
  {
    if components == [] {
      assert components + [name] == [name] && [name][1..] == [];
      assert forall line: string :: [line] + [] == [] + [line];
    } else {
      LinesSnoc(request, headers, components[1..], name);
      assert (components + [name])[0] == components[0] && (components + [name])[1..] == components[1..] + [name];
      var rest, value := Lines(request, headers, components[1..]), Covered(request, headers, name);
      var head := Covered(request, headers, components[0]);
      if rest.Some? && value.Some? && head.Some? {
        assert [Line(components[0], head.value)] + (rest.value + [Line(name, value.value)])
            == [Line(components[0], head.value)] + rest.value + [Line(name, value.value)];
      }
    }
  }

  lemma {:induction false} LinesPrefix(request: Request, headers: Headers, components: seq<string>, n: nat)
    requires n <= |components| && Lines(request, headers, components[..n]).None?
    ensures Lines(request, headers, components).None?
    decreases n
  {
    if n > 0 {
      assert components[..n][1..] == components[1..][..n - 1];
      if Lines(request, headers, components[1..]).Some? && Covered(request, headers, components[0]).Some? {
        LinesPrefix(request, headers, components[1..], n - 1);
      }
    }
  }

  // ----- what normalisation promises -----

  predicate Accepted(headers: seq<(string, string)>, lower: string -> string) {
    && (forall i :: 0 <= i < |headers| ==> HeaderName(lower(headers[i].0)) && OneLine(headers[i].1))
    && (forall i, j :: 0 <= i < j < |headers| ==> lower(headers[i].0) != lower(headers[j].0))
  }

  predicate Unseen(headers: seq<(string, string)>, lower: string -> string, seen: Headers) {
    forall i :: 0 <= i < |headers| ==> lower(headers[i].0) !in seen
  }

  lemma {:induction false} AcceptedExactly(headers: seq<(string, string)>, lower: string -> string, seen: Headers)
    ensures Normalized(headers, lower, seen).Ok? <==> Accepted(headers, lower) && Unseen(headers, lower, seen)
    decreases |headers|
  {
    if headers != [] {
      var key := lower(headers[0].0);
      var more := seen[key := Strip(headers[0].1)];
      if HeaderName(key) && key !in seen && OneLine(headers[0].1) {
        AcceptedExactly(headers[1..], lower, more);
        assert forall i :: 0 < i < |headers| ==> headers[i] == headers[1..][i - 1];
        if Accepted(headers, lower) && Unseen(headers, lower, seen) {
          assert forall i :: 0 <= i < |headers[1..]| ==> headers[1..][i] == headers[i + 1];
        }
      }
    }
  }

  lemma {:induction false} NormalizedFrom(headers: seq<(string, string)>, lower: string -> string, seen: Headers)
    ensures var r := Normalized(headers, lower, seen);
            && (r.Ok? <==> Accepted(headers, lower) && Unseen(headers, lower, seen))
            && (r.Ok? ==>
                  && (forall i :: 0 <= i < |headers| ==>
                        lower(headers[i].0) in r.value && r.value[lower(headers[i].0)] == Strip(headers[i].1))
                  && (forall k :: k in seen ==> k in r.value && r.value[k] == seen[k])
                  && (forall k :: k in r.value && k !in seen ==>
                       exists i :: 0 <= i < |headers| && k == lower(headers[i].0)))
    decreases |headers|
  {
    AcceptedExactly(headers, lower, seen);
    if headers != [] && Normalized(headers, lower, seen).Ok? {
      var key := lower(headers[0].0);
      NormalizedFrom(headers[1..], lower, seen[key := Strip(headers[0].1)]);
      assert forall i :: 0 < i < |headers| ==> headers[i] == headers[1..][i - 1];
      assert seen[key := Strip(headers[0].1)][key] == Strip(headers[0].1);
    }
  }

  lemma {:induction false} StripOneLine(s: string)
    requires OneLine(s)
    ensures OneLine(StripLeft(s)) && OneLine(StripRight(s))
    decreases |s|
  {
    if s != [] {
      StripOneLine(s[1..]);
      StripOneLine(s[..|s| - 1]);
    }
  }

  /** The trimmed values of accepted headers are single lines. */
  lemma TrimmedLines(headers: seq<(string, string)>, lower: string -> string)
    requires Accepted(headers, lower)
    ensures forall i :: 0 <= i < |headers| ==> OneLine(Strip(headers[i].1))
  {
    forall i | 0 <= i < |headers|
      ensures OneLine(Strip(headers[i].1))
    {
      StripOneLine(headers[i].1);
      StripOneLine(StripLeft(headers[i].1));
    }
  }

  /** Headers are accepted exactly when every name is a valid token, no two agree after case folding, and no value
      breaks the line; the result maps each folded name to its trimmed value, which is a single line. */
  lemma NormalizedExactly(headers: seq<(string, string)>, lower: string -> string)
    ensures var r := Normalized(headers, lower, map[]);
            && (r.Ok? <==> Accepted(headers, lower))
            && (r.Ok? ==>
                  && r.value.Keys == (set i | 0 <= i < |headers| :: lower(headers[i].0))
                  && (forall i :: 0 <= i < |headers| ==> r.value[lower(headers[i].0)] == Strip(headers[i].1))
                  && NormalHeaders(r.value))
  {
    NormalizedFrom(headers, lower, map[]);
    var r := Normalized(headers, lower, map[]);
    if r.Ok? {
      TrimmedLines(headers, lower);
      forall k | k in r.value
        ensures HeaderName(k) && OneLine(r.value[k])
      {
        var i :| 0 <= i < |headers| && k == lower(headers[i].0);
      }
    }
  }

  // ----- injectivity -----

  /** What a line of a base can be named after: a header, a derived component or the parameters. */
  predicate LineName(s: string) {
    HeaderName(s) || s == "@method" || s == "@target-uri" || s == "@signature-params"
  }

  /** What comes before the value on its line. */
  function Label(name: string): string { Line(name, "") }

  lemma LabelFirst(name: string, value: string)
    ensures Line(name, value) == Label(name) + value
  {
  }

  /** No line feed in the value is followed by what could start a line of the base. */
  ghost predicate Plain(value: string) {
    forall i, n :: 0 <= i < |value| && value[i] == '\n' && LineName(n) ==> !(Label(n) <= value[i + 1..])
  }

  /** Headers as they come out of normalisation. */
  predicate NormalHeaders(headers: Headers) {
    forall k :: k in headers ==> HeaderName(k) && OneLine(headers[k])
  }

  /** The headers are normalised, and the method, the target and the parameters are plain. */
  ghost predicate Legible(request: Request, headers: Headers, parameters: string) {
    NormalHeaders(headers) && Plain(request.targetMethod) && Plain(request.targetUri) && Plain(parameters)
  }

  /** A line of a base before it is written. */
  datatype Entry = Entry(name: string, value: string)

  ghost predicate Readable(entries: seq<Entry>) {
    forall i :: 0 <= i < |entries| ==> LineName(entries[i].name) && Plain(entries[i].value)
  }

  function Written(entries: seq<Entry>): string
    requires entries != []
    decreases |entries|, 0
  {
    Line(entries[0].name, entries[0].value + After(entries[1..]))
  }

  /** What follows a value: nothing, or a line feed and the remaining lines. */
  function After(entries: seq<Entry>): string
    decreases |entries|, 1
  {
    if entries == [] then "" else "\n" + Written(entries)
  }

  lemma ShorterNameDiffers(m: string, v: string, n: string, w: string)
    requires LineName(n) && |m| < |n|
    ensures Line(m, v) != Line(n, w)
  {
    assert Line(m, v)[|m| + 1] == '"' && Line(n, w)[|m| + 1] == n[|m|];
  }

  /** A line gives back its name and value. */
  lemma LineInjective(m: string, v: string, n: string, w: string)
    requires LineName(m) && LineName(n) && Line(m, v) == Line(n, w)
    ensures m == n && v == w
  {
    if |m| < |n| {
      ShorterNameDiffers(m, v, n, w);
    } else if |n| < |m| {
      ShorterNameDiffers(n, w, m, v);
    } else {
      var a, b := Line(m, v), Line(n, w);
      assert a[1..|m| + 1] == m && b[1..|n| + 1] == n;
      assert a[|m| + 4..] == v && b[|n| + 4..] == w;
    }
  }

  /** A longer value reaches into the line after a shorter one. */
  lemma ReachesNext(v: string, es: seq<Entry>, w: string, fs: seq<Entry>)
    requires v + After(es) == w + After(fs) && |v| < |w|
    ensures es != [] && w[|v|] == '\n' && Label(es[0].name) <= w[|v| + 1..] + After(fs)
  {
    var all := v + After(es);
    assert all[|v|] == After(es)[0] && all[|v|] == w[|v|];
    LabelFirst(es[0].name, es[0].value + After(es[1..]));
    assert all[|v| + 1..] == After(es)[1..] == Written(es);
    assert all[|v| + 1..] == w[|v| + 1..] + After(fs);
  }

  lemma LabelWithin(name: string, tail: string, fs: seq<Entry>)
    requires LineName(name) && Label(name) <= tail + After(fs)
    ensures Label(name) <= tail
  {
    var all := tail + After(fs);
    assert forall j :: 0 <= j < |Label(name)| ==> Label(name)[j] == all[j];
    assert all == tail || all[|tail|] == '\n';
    assert Without(Label(name), '\n');
  }

  /** A plain value does not. */
  lemma PlainStops(v: string, es: seq<Entry>, w: string, fs: seq<Entry>)
    requires v + After(es) == w + After(fs) && Readable(es) && Plain(w)
    ensures |w| <= |v|
  {
    if |v| < |w| {
      ReachesNext(v, es, w, fs);
      LabelWithin(es[0].name, w[|v| + 1..], fs);
    }
  }

  /** Readable lines are determined by their text. */
  lemma {:induction false} WrittenInjective(es: seq<Entry>, fs: seq<Entry>)
    requires es != [] && fs != [] && Readable(es) && Readable(fs) && Written(es) == Written(fs)
    ensures es == fs
    decreases |es|
  {
    var v, w := es[0].value, fs[0].value;
    LineInjective(es[0].name, v + After(es[1..]), fs[0].name, w + After(fs[1..]));
    PlainStops(v, es[1..], w, fs[1..]);
    PlainStops(w, fs[1..], v, es[1..]);
    assert v == (v + After(es[1..]))[..|v|] && w == (w + After(fs[1..]))[..|w|];
    assert After(es[1..]) == (v + After(es[1..]))[|v|..] && After(fs[1..]) == (w + After(fs[1..]))[|w|..];
    if es[1..] != [] && fs[1..] != [] {
      assert Written(es[1..]) == After(es[1..])[1..] && Written(fs[1..]) == After(fs[1..])[1..];
      WrittenInjective(es[1..], fs[1..]);
    }
    assert es == [es[0]] + es[1..] && fs == [fs[0]] + fs[1..];
  }

  /** The lines of a base, before they are written. */
  function Entries(request: Request, headers: Headers, components: seq<string>, parameters: string): seq<Entry>
    requires Lines(request, headers, components).Some?
  {
    if components == [] then [Entry("@signature-params", parameters)]
    else
      [Entry(components[0], Covered(request, headers, components[0]).value)]
      + Entries(request, headers, components[1..], parameters)
  }

  lemma {:induction false} EntriesReadable(r: Request, h: Headers, c: seq<string>, p: string)
    requires Lines(r, h, c).Some? && Legible(r, h, p)
    ensures |Entries(r, h, c, p)| == |c| + 1 && Readable(Entries(r, h, c, p))
    decreases |c|
  {
    if c != [] {
      EntriesReadable(r, h, c[1..], p);
    }
  }

  lemma {:induction false} BaseIsWritten(r: Request, h: Headers, c: seq<string>, p: string)
    requires Lines(r, h, c).Some?
    ensures |Entries(r, h, c, p)| == |c| + 1 && Base(r, h, c, p) == Ok(Written(Entries(r, h, c, p)))
    decreases |c|
  {
    var last := Line("@signature-params", p);
    if c == [] {
      assert [] + [last] == [last];
      assert p + After([]) == p;
    } else {
      var value, rest, es := Covered(r, h, c[0]).value, Lines(r, h, c[1..]).value, Entries(r, h, c[1..], p);
      BaseIsWritten(r, h, c[1..], p);
      LinesOneMore(c[0], value, rest + [last], es);
      assert [Line(c[0], value)] + rest + [last] == [Line(c[0], value)] + (rest + [last]);
    }
  }

  lemma LinesOneMore(name: string, value: string, lines: seq<string>, es: seq<Entry>)
    requires lines != [] && es != [] && Join(lines, '\n') == Written(es)
    ensures Join([Line(name, value)] + lines, '\n') == Written([Entry(name, value)] + es)
  {
    assert ([Line(name, value)] + lines)[1..] == lines && ([Entry(name, value)] + es)[1..] == es;
    assert Line(name, value) + ['\n'] + Written(es) == Line(name, value + After(es));
  }

  lemma {:induction false} EntriesInjective(r: Request, h: Headers, c: seq<string>, p: string, s: Request, g: Headers,
                                            d: seq<string>, q: string)
    requires Lines(r, h, c).Some? && Lines(s, g, d).Some? && Entries(r, h, c, p) == Entries(s, g, d, q)
    ensures c == d && p == q
    ensures forall i :: 0 <= i < |c| ==> Covered(r, h, c[i]) == Covered(s, g, c[i]) != None
    decreases |c|
  {
    if c != [] && d != [] {
      assert Entries(r, h, c, p)[1..] == Entries(r, h, c[1..], p);
      assert Entries(s, g, d, q)[1..] == Entries(s, g, d[1..], q);
      EntriesInjective(r, h, c[1..], p, s, g, d[1..], q);
      assert forall i :: 0 < i < |c| ==> c[i] == c[1..][i - 1];
      assert c == [c[0]] + c[1..] && d == [d[0]] + d[1..];
    } else {
      BaseIsWritten(r, h, c, p);
      BaseIsWritten(s, g, d, q);
    }
  }

  /** The base text determines the covered components in order, the value of each, and the parameters, whatever line
      feeds the method and target hold, as long as none is followed by what could start a line. */
  lemma BaseInjective(r: Request, h: Headers, c: seq<string>, p: string, s: Request, g: Headers, d: seq<string>,
                      q: string)
    requires Legible(r, h, p) && Legible(s, g, q)
    requires Base(r, h, c, p).Ok? && Base(r, h, c, p) == Base(s, g, d, q)
    ensures c == d && p == q
    ensures forall i :: 0 <= i < |c| ==> Covered(r, h, c[i]) == Covered(s, g, c[i]) != None
  {
    BaseIsWritten(r, h, c, p);
    BaseIsWritten(s, g, d, q);
    EntriesReadable(r, h, c, p);
    EntriesReadable(s, g, d, q);
    WrittenInjective(Entries(r, h, c, p), Entries(s, g, d, q));
    EntriesInjective(r, h, c, p, s, g, d, q);
  }

  /** Any method that holds a header line after a line feed breaks this: one covered component can read as two. */
  lemma LineFeedConfuses(m: string, n: string, x: string, uri: string, p: string)
    requires HeaderName(n)
    ensures Base(Request(m + "\n" + Line(n, x), uri), map[], ["@method"], p)
         == Base(Request(m, uri), map[n := x], ["@method", n], p)
  {
    var last := Line("@signature-params", p);
    var r, s, h := Request(m + "\n" + Line(n, x), uri), Request(m, uri), map[n := x];
    var one, two, three := Line("@method", r.targetMethod), Line("@method", m), Line(n, x);
    LinesSnoc(r, map[], [], "@method");
    LinesSnoc(s, h, [], "@method");
    LinesSnoc(s, h, ["@method"], n);
    assert [] + ["@method"] == ["@method"] && ["@method"] + [n] == ["@method", n];
    assert one == two + ['\n'] + three;
    assert Lines(r, map[], ["@method"]).value == [one];
    assert Lines(s, h, ["@method", n]).value == [two, three];
    assert [one] + [last] == [one, last] && [two, three] + [last] == [two, three, last];
    assert [one, last][1..] == [last] && [two, three, last][1..] == [three, last] && [three, last][1..] == [last];
    assert Join([last], '\n') == last;
    assert Join([one, last], '\n') == one + ['\n'] + last;
    assert Join([three, last], '\n') == three + ['\n'] + last;
    assert Join([two, three, last], '\n') == two + ['\n'] + Join([three, last], '\n');
    assert two + ['\n'] + (three + ['\n'] + last) == one + ['\n'] + last;
  }
}
