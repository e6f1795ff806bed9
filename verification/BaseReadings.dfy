/** Exactly which values of a derived component keep signature bases apart. */
module BaseReadings {
  import opened Prelude
  import opened Text
  import opened SignatureBase

  /** Everything a base is built from. */
  datatype Signed = Signed(request: Request, headers: Headers, components: seq<string>, parameters: string) {
    function Text(): Result<string, Rejection> { Base(request, headers, components, parameters) }
  }

  predicate Distinct(names: seq<string>) {
    forall j, k :: 0 <= j < k < |names| ==> names[j] != names[k]
  }

  predicate IsDerived(name: string) { name == "@method" || name == "@target-uri" }

  /** Requests as they reach the printer, with one derived component taken from `values` and no line feed in the
      other one or in the parameters. */
  ghost predicate Admitted(free: string, values: iset<string>, m: Signed) {
    && NormalHeaders(m.headers) && Distinct(m.components) && Without(m.parameters, '\n')
    && (forall n :: IsDerived(n) ==>
          if n == free then Derived(m.request, n).value in values else Without(Derived(m.request, n).value, '\n'))
  }

  predicate SameReading(m: Signed, k: Signed) {
    && m.components == k.components && m.parameters == k.parameters
    && forall i :: 0 <= i < |m.components| ==>
         Covered(m.request, m.headers, m.components[i]) == Covered(k.request, k.headers, m.components[i])
  }

  /** The base text of any admitted request has one reading among the admitted ones. */
  ghost predicate OneReading(free: string, values: iset<string>) {
    forall m, k :: Admitted(free, values, m) && Admitted(free, values, k) && m.Text().Ok? && m.Text() == k.Text() ==>
      SameReading(m, k)
  }

  function NamesOf(es: seq<Entry>): (names: seq<string>)
    ensures |names| == |es|
  {
    seq(|es|, i requires 0 <= i < |es| => es[i].name)
  }

  /** A line that another component than `free` can give rise to. */
  predicate OtherLine(free: string, e: Entry) {
    e.name != free && ((HeaderName(e.name) && OneLine(e.value)) || (IsDerived(e.name) && Without(e.value, '\n')))
  }

  /** `w` is `v` continued by lines of other components, all different. */
  ghost predicate Continues(free: string, w: string, v: string) {
    exists es :: ContinuedBy(free, w, v, es)
  }

  ghost predicate ContinuedBy(free: string, w: string, v: string, es: seq<Entry>) {
    && es != [] && Distinct(NamesOf(es)) && (forall i :: 0 <= i < |es| ==> OtherLine(free, es[i]))
    && w == v + After(es)
  }

  ghost predicate Apart(free: string, values: iset<string>) {
    forall v, w :: v in values && w in values ==> !Continues(free, w, v)
  }

  // ----- values apart have one reading -----

  /** The lines of an admitted request or the last of them. */
  ghost predicate AdmittedLines(free: string, values: iset<string>, es: seq<Entry>) {
    && es != [] && Distinct(NamesOf(es))
    && (forall i :: 0 <= i < |es| - 1 ==>
          OtherLine(free, es[i]) || (es[i].name == free && es[i].value in values))
    && es[|es| - 1].name == "@signature-params" && Without(es[|es| - 1].value, '\n')
  }

  lemma AfterConcat(es: seq<Entry>, fs: seq<Entry>)
    ensures After(es + fs) == After(es) + After(fs)
  {
    if es == [] {
      assert es + fs == fs;
    } else {
      AfterConcat(es[1..], fs);
      assert (es + fs)[1..] == es[1..] + fs;
      assert "\n" + Line(es[0].name, es[0].value + (After(es[1..]) + After(fs)))
          == "\n" + Line(es[0].name, es[0].value + After(es[1..])) + After(fs);
    }
  }

  lemma FirstLine(es: seq<Entry>)
    requires es != []
    ensures After(es) == "\n" + Line(es[0].name, es[0].value) + After(es[1..])
  {
    assert es == [es[0]] + es[1..];
    AfterConcat([es[0]], es[1..]);
    assert After([es[0]]) == "\n" + Line(es[0].name, es[0].value + "");
    assert es[0].value + "" == es[0].value;
  }

  lemma LineStart(first: string, rest: string, t: string, u: string)
    requires Without(first, '\n') && "\n" + first + rest == t + u && t != "" && (u != "" ==> u[0] == '\n')
    ensures |first| < |t|
  {
    var all := t + u;
    assert forall j :: 0 <= j < |first| ==> all[j + 1] == first[j];
    assert u != "" ==> all[|t|] == '\n';
  }

  lemma CutFirst(line: string, rest: string, t: string, u: string) returns (more: string)
    requires Without(line, '\n') && "\n" + line + rest == t + u && t != "" && (u != "" ==> u[0] == '\n')
    ensures t == "\n" + line + more && rest == more + u && |more| < |t|
  {
    LineStart(line, rest, t, u);
    more := t[|line| + 1..];
    var all := t + u;
    assert all[..|line| + 1] == "\n" + line && all[|line| + 1..] == rest;
    assert all[..|line| + 1] == t[..|line| + 1] && all[|line| + 1..] == more + u;
  }

  lemma LineUnbroken(name: string, value: string)
    requires LineName(name) && Without(value, '\n')
    ensures Without(Line(name, value), '\n')
  {
  }

  /** Single lines can be cut only between lines. */
  lemma {:induction false} CutBetween(es: seq<Entry>, t: string, u: string) returns (k: nat)
    requires forall i :: 0 <= i < |es| ==> LineName(es[i].name) && Without(es[i].value, '\n')
    requires After(es) == t + u && t != "" && (u != "" ==> u[0] == '\n')
    ensures 0 < k <= |es| && t == After(es[..k])
    decreases |es|
  {
    FirstLine(es);
    LineUnbroken(es[0].name, es[0].value);
    var more := CutFirst(Line(es[0].name, es[0].value), After(es[1..]), t, u);
    if more == "" {
      k := 1;
    } else {
      k := CutBetween(es[1..], more, u);
      k := k + 1;
    }
    OneLineMore(es, k);
  }

  /** And before the last line when more than nothing is left. */
  lemma CutBefore(es: seq<Entry>, t: string, fs: seq<Entry>) returns (k: nat)
    requires forall i :: 0 <= i < |es| ==> LineName(es[i].name) && Without(es[i].value, '\n')
    requires After(es) == t + After(fs) && t != "" && fs != []
    ensures 0 < k < |es| && t == After(es[..k])
  {
    FirstLine(fs);
    k := CutBetween(es, t, After(fs));
    assert es[..|es|] == es;
  }

  lemma OneLineMore(es: seq<Entry>, k: nat)
    requires 0 < k <= |es|
    ensures After(es[..k]) == "\n" + Line(es[0].name, es[0].value) + After(es[1..][..k - 1])
  {
    FirstLine(es[..k]);
    assert es[..k][1..] == es[1..][..k - 1];
  }

  lemma Overlap(v: string, a: string, w: string, b: string)
    requires v + a == w + b && |v| < |w|
    ensures w == v + w[|v|..] && a == w[|v|..] + b
  {
    var all := v + a;
    assert all[..|v|] == v && all[..|v|] == w[..|v|];
    assert all[|v|..] == a && all[|v|..] == w[|v|..] + b;
  }

  /** Of two readings that start with a value of `free`, neither value is longer, or it continues the other. */
  lemma NoLonger(free: string, values: iset<string>, v: string, es: seq<Entry>, w: string, fs: seq<Entry>)
    requires Apart(free, values) && v in values && w in values && IsDerived(free)
    requires AdmittedLines(free, values, es) && AdmittedLines(free, values, fs)
    requires forall i :: 0 <= i < |es| ==> es[i].name != free
    requires v + After(es) == w + After(fs)
    ensures |w| <= |v|
  {
    if |v| < |w| {
      Overlap(v, After(es), w, After(fs));
      LinesSingle(free, values, es);
      var k := CutBefore(es, w[|v|..], fs);
      LinesContinue(free, values, v, es, k, w);
    }
  }

  lemma LinesContinue(free: string, values: iset<string>, v: string, es: seq<Entry>, k: nat, w: string)
    requires AdmittedLines(free, values, es) && forall i :: 0 <= i < |es| ==> es[i].name != free
    requires 0 < k < |es| && w == v + After(es[..k])
    ensures Continues(free, w, v)
  {
    DistinctPrefix(es, k);
    assert ContinuedBy(free, w, v, es[..k]);
  }

  lemma DistinctPrefix(es: seq<Entry>, k: nat)
    requires k <= |es| && Distinct(NamesOf(es))
    ensures Distinct(NamesOf(es[..k]))
  {
    assert NamesOf(es[..k]) == NamesOf(es)[..k];
  }

  lemma LinesSingle(free: string, values: iset<string>, es: seq<Entry>)
    requires AdmittedLines(free, values, es) && IsDerived(free)
    ensures forall i :: 0 <= i < |es| ==> LineName(es[i].name) && (es[i].name != free ==> Without(es[i].value, '\n'))
    ensures es[0].name == "@signature-params" <==> |es| == 1
  {
    assert !NameChar('@');
    assert !HeaderName("@signature-params") by {
      assert "@signature-params"[0] == '@';
    }
  }

  lemma SingleLineEnds(v: string, es: seq<Entry>, w: string, fs: seq<Entry>)
    requires v + After(es) == w + After(fs) && Without(w, '\n')
    ensures |w| <= |v|
  {
    var all := v + After(es);
    assert forall j :: 0 <= j < |w| ==> all[j] == w[j];
    assert After(es) != "" ==> all[|v|] == '\n';
  }

  lemma TailAdmitted(free: string, values: iset<string>, es: seq<Entry>)
    requires AdmittedLines(free, values, es) && |es| > 1
    ensures AdmittedLines(free, values, es[1..])
    ensures es[0].name == free ==> forall i :: 0 <= i < |es| - 1 ==> es[1..][i].name != free
  {
    assert NamesOf(es[1..]) == NamesOf(es)[1..];
    assert forall i :: 0 <= i < |es| - 1 ==> NamesOf(es)[i + 1] == es[1..][i].name;
    assert NamesOf(es)[0] == es[0].name;
  }

  lemma ValuesAgree(free: string, values: iset<string>, es: seq<Entry>, fs: seq<Entry>)
    requires Apart(free, values) && IsDerived(free) && |es| > 1 && |fs| > 1 && es[0].name == fs[0].name
    requires AdmittedLines(free, values, es) && AdmittedLines(free, values, fs)
    requires es[0].value + After(es[1..]) == fs[0].value + After(fs[1..])
    ensures |es[0].value| == |fs[0].value|
  {
    TailAdmitted(free, values, es);
    TailAdmitted(free, values, fs);
    var v, w, x, y := es[0].value, fs[0].value, es[1..], fs[1..];
    LinesSingle(free, values, es);
    LinesSingle(free, values, fs);
    if es[0].name == free {
      NoLonger(free, values, v, x, w, y);
      NoLonger(free, values, w, y, v, x);
    } else {
      SingleLineEnds(v, x, w, y);
      SingleLineEnds(w, y, v, x);
    }
  }

  lemma {:induction false} LinesAgree(free: string, values: iset<string>, es: seq<Entry>, fs: seq<Entry>)
    requires Apart(free, values) && IsDerived(free)
    requires AdmittedLines(free, values, es) && AdmittedLines(free, values, fs) && Written(es) == Written(fs)
    ensures es == fs
    decreases |es|
  {
    var v, w, x, y := es[0].value, fs[0].value, es[1..], fs[1..];
    LinesSingle(free, values, es);
    LinesSingle(free, values, fs);
    LineInjective(es[0].name, v + After(x), fs[0].name, w + After(y));
    if |es| == 1 {
      assert v + After(x) == v && w + After(y) == w;
    } else {
      ValuesAgree(free, values, es, fs);
      assert v == (v + After(x))[..|v|] && w == (w + After(y))[..|w|];
      assert After(x) == (v + After(x))[|v|..] && After(y) == (w + After(y))[|w|..];
      assert Written(x) == After(x)[1..] && Written(y) == After(y)[1..];
      TailAdmitted(free, values, es);
      TailAdmitted(free, values, fs);
      LinesAgree(free, values, x, y);
    }
    assert es == [es[0]] + x && fs == [fs[0]] + y;
  }

  lemma {:induction false} EntriesExactly(r: Request, h: Headers, c: seq<string>, p: string)
    requires Lines(r, h, c).Some?
    ensures var es := Entries(r, h, c, p);
            && |es| == |c| + 1 && es[|c|] == Entry("@signature-params", p)
            && forall i :: 0 <= i < |c| ==> Covered(r, h, c[i]).Some? && es[i] == Entry(c[i], Covered(r, h, c[i]).value)
    decreases |c|
  {
    if c != [] {
      EntriesExactly(r, h, c[1..], p);
    }
  }

  lemma EntriesAdmitted(free: string, values: iset<string>, m: Signed)
    requires Admitted(free, values, m) && m.Text().Ok? && IsDerived(free)
    ensures AdmittedLines(free, values, Entries(m.request, m.headers, m.components, m.parameters))
  {
    var es, c := Entries(m.request, m.headers, m.components, m.parameters), m.components;
    EntriesExactly(m.request, m.headers, c, m.parameters);
    forall i | 0 <= i < |c|
      ensures c[i] != "@signature-params"
      ensures OtherLine(free, es[i]) || (es[i].name == free && es[i].value in values)
    {
      CoveredLine(free, values, m, c[i]);
    }
    assert forall i :: 0 <= i < |es| ==> NamesOf(es)[i] == es[i].name;
  }

  lemma CoveredLine(free: string, values: iset<string>, m: Signed, name: string)
    requires Admitted(free, values, m) && IsDerived(free) && Covered(m.request, m.headers, name).Some?
    ensures name != "@signature-params"
    ensures var e := Entry(name, Covered(m.request, m.headers, name).value);
            OtherLine(free, e) || (name == free && e.value in values)
  {
    if name != [] && name[0] == '@' {
      assert IsDerived(name);
    }
  }

  lemma ApartIsEnough(free: string, values: iset<string>)
    requires IsDerived(free) && Apart(free, values)
    ensures OneReading(free, values)
  {
    forall m, k | Admitted(free, values, m) && Admitted(free, values, k) && m.Text().Ok? && m.Text() == k.Text()
      ensures SameReading(m, k)
    {
      BaseIsWritten(m.request, m.headers, m.components, m.parameters);
      BaseIsWritten(k.request, k.headers, k.components, k.parameters);
      EntriesAdmitted(free, values, m);
      EntriesAdmitted(free, values, k);
      LinesAgree(free, values, Entries(m.request, m.headers, m.components, m.parameters),
                 Entries(k.request, k.headers, k.components, k.parameters));
      EntriesInjective(m.request, m.headers, m.components, m.parameters,
                       k.request, k.headers, k.components, k.parameters);
    }
  }

  // ----- a value that continues another has two -----

  function RequestOf(free: string, value: string, other: string): Request {
    if free == "@method" then Request(value, other) else Request(other, value)
  }

  /** The value of the line named `name`, if there is one. */
  ghost function ValueOf(es: seq<Entry>, name: string): string {
    if i :| 0 <= i < |es| && es[i].name == name then es[i].value else ""
  }

  ghost function HeadersOf(es: seq<Entry>): Headers {
    map n | n in NamesOf(es) && HeaderName(n) :: ValueOf(es, n)
  }

  lemma ValueAt(es: seq<Entry>, i: nat)
    requires i < |es| && Distinct(NamesOf(es))
    ensures ValueOf(es, es[i].name) == es[i].value && es[i].name in NamesOf(es)
  {
    assert forall j :: 0 <= j < |es| ==> NamesOf(es)[j] == es[j].name;
  }

  /** The request that covers just `free`, with the value `w`. */
  function Whole(free: string, w: string): Signed {
    Signed(RequestOf(free, w, ""), map[], [free], "")
  }

  /** The request that covers `free`, with the value `v`, and the components of the lines. */
  ghost function Broken(free: string, v: string, es: seq<Entry>): Signed {
    var other := if free == "@method" then "@target-uri" else "@method";
    Signed(RequestOf(free, v, ValueOf(es, other)), HeadersOf(es), [free] + NamesOf(es), "")
  }

  lemma {:induction false} EntriesFor(r: Request, h: Headers, es: seq<Entry>, p: string)
    requires forall i :: 0 <= i < |es| ==> Covered(r, h, es[i].name) == Some(es[i].value)
    ensures Lines(r, h, NamesOf(es)).Some? && Entries(r, h, NamesOf(es), p) == es + [Entry("@signature-params", p)]
    decreases |es|
  {
    if es != [] {
      assert NamesOf(es)[1..] == NamesOf(es[1..]);
      EntriesFor(r, h, es[1..], p);
      assert es == [es[0]] + es[1..];
    }
  }

  lemma BrokenCovers(free: string, v: string, es: seq<Entry>, i: nat)
    requires IsDerived(free) && i < |es| && Distinct(NamesOf(es)) && OtherLine(free, es[i])
    ensures var m := Broken(free, v, es); Covered(m.request, m.headers, es[i].name) == Some(es[i].value)
  {
    ValueAt(es, i);
  }

  lemma TextFor(m: Signed, es: seq<Entry>)
    requires m.components == NamesOf(es)
    requires forall i :: 0 <= i < |es| ==> Covered(m.request, m.headers, es[i].name) == Some(es[i].value)
    ensures m.Text() == Ok(Written(es + [Entry("@signature-params", m.parameters)]))
  {
    EntriesFor(m.request, m.headers, es, m.parameters);
    BaseIsWritten(m.request, m.headers, m.components, m.parameters);
  }

  lemma SameWriting(free: string, v: string, es: seq<Entry>, last: Entry)
    ensures Written([Entry(free, v)] + es + [last]) == Written([Entry(free, v + After(es))] + [last])
  {
    var one, two := [Entry(free, v)] + es + [last], [Entry(free, v + After(es))] + [last];
    assert one[1..] == es + [last] && two[1..] == [last];
    AfterConcat(es, [last]);
    assert v + (After(es) + After([last])) == v + After(es) + After([last]);
  }

  lemma BrokenText(free: string, v: string, es: seq<Entry>, w: string)
    requires IsDerived(free) && ContinuedBy(free, w, v, es)
    ensures Broken(free, v, es).Text().Ok? && Broken(free, v, es).Text() == Whole(free, w).Text()
  {
    var m, all := Broken(free, v, es), [Entry(free, v)] + es;
    forall i | 0 <= i < |all|
      ensures Covered(m.request, m.headers, all[i].name) == Some(all[i].value)
    {
      if i > 0 {
        BrokenCovers(free, v, es, i - 1);
      }
    }
    assert NamesOf(all) == m.components;
    TextFor(m, all);
    assert NamesOf([Entry(free, w)]) == [free];
    TextFor(Whole(free, w), [Entry(free, w)]);
    SameWriting(free, v, es, Entry("@signature-params", ""));
  }

  lemma BrokenAdmitted(free: string, values: iset<string>, v: string, es: seq<Entry>, w: string)
    requires IsDerived(free) && ContinuedBy(free, w, v, es) && v in values && w in values
    ensures Admitted(free, values, Broken(free, v, es)) && Admitted(free, values, Whole(free, w))
  {
    var m := Broken(free, v, es);
    assert forall i :: 0 <= i < |es| ==> NamesOf(es)[i] == es[i].name;
    forall k | k in m.headers
      ensures HeaderName(k) && OneLine(m.headers[k])
    {
      var i :| 0 <= i < |es| && es[i].name == k;
      ValueAt(es, i);
      assert OtherLine(free, es[i]) && NameChar(k[0]);
    }
  }

  lemma ContinuingConfuses(free: string, values: iset<string>, v: string, w: string)
    requires IsDerived(free) && v in values && w in values && Continues(free, w, v)
    ensures !OneReading(free, values)
  {
    var es :| ContinuedBy(free, w, v, es);
    BrokenText(free, v, es, w);
    BrokenAdmitted(free, values, v, es, w);
    assert !SameReading(Whole(free, w), Broken(free, v, es)) by {
      assert |Broken(free, v, es).components| > 1;
    }
  }

  /** For either derived component and any set of values it may have: base texts have one reading exactly when no value
      is another one continued by lines of other components. */
  lemma ReadingsExactly(free: string, values: iset<string>)
    requires IsDerived(free)
    ensures OneReading(free, values) <==> Apart(free, values)
  {
    if Apart(free, values) {
      ApartIsEnough(free, values);
    }
    if v, w :| v in values && w in values && Continues(free, w, v) {
      ContinuingConfuses(free, values, v, w);
    }
  }
}
