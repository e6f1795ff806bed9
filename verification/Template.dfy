/** Subject ACL templates: one pass of substitution, and what it may and may not do to a subject. */
module Template {
  import opened Prelude
  import opened Text

  datatype AclContext = AclContext(
    caller: Option<string>,
    aud: Option<string>,
    sub: Option<string>,
    iss: Option<string>)

  datatype PatternError = Empty | Whitespace

  datatype TemplateError =
    | UnknownPlaceholder(name: string)
    | MissingValue(name: string)
    | UnclosedPlaceholder
    | InvalidSubject(error: PatternError)
    | InvalidPlaceholderValue(name: string)

  /** Which characters count as whitespace. */
  type Spaces = char -> bool

  // ----- placeholders -----

  function ContextValue(c: AclContext, name: string): Result<string, TemplateError> {
    if name !in {"caller", "aud", "sub", "iss"} then Err(UnknownPlaceholder(name))
    else
      var raw := if name == "caller" then c.caller else if name == "aud" then c.aud
                 else if name == "sub" then c.sub else c.iss;
      if raw.None? then Err(MissingValue(name)) else Ok(raw.value)
  }

  predicate HasSpace(isSpace: Spaces, s: string) {
    exists j :: 0 <= j < |s| && isSpace(s[j])
  }

  /** A value that stays within one literal subject token. */
  predicate SafeValue(isSpace: Spaces, s: string) {
    s != "" && '.' !in s && '*' !in s && '>' !in s && !HasSpace(isSpace, s)
  }

  /** The checked value of a placeholder. */
  function PlaceholderValue(isSpace: Spaces, c: AclContext, name: string): (r: Result<string, TemplateError>)
    ensures r.Ok? ==> SafeValue(isSpace, r.value) && name in {"caller", "aud", "sub", "iss"}
  {
    var raw := ContextValue(c, name);
    if raw.Err? then raw
    else if !SafeValue(isSpace, raw.value) then Err(InvalidPlaceholderValue(name))
    else raw
  }

  /** The position of the first closing brace, or the length. */
  function CloseAt(t: string): (k: nat)
    ensures k <= |t| && '}' !in t[..k] && (k < |t| ==> t[k] == '}')
  {
    if t == [] || t[0] == '}' then 0 else 1 + CloseAt(t[1..])
  }

  function After(done: string, rest: Result<string, TemplateError>): Result<string, TemplateError> {
    if rest.Ok? then Ok(done + rest.value) else rest
  }

  /** The template with its placeholders replaced; a replacement is not looked at again. */
  function Substituted(isSpace: Spaces, c: AclContext, t: string): Result<string, TemplateError>
    decreases |t|
  {
    if t == [] then Ok([])
    else if t[0] != '{' then After([t[0]], Substituted(isSpace, c, t[1..]))
    else
      var rest := t[1..];
      var k := CloseAt(rest);
      if k == |rest| then Err(UnclosedPlaceholder)
      else
        var value := PlaceholderValue(isSpace, c, rest[..k]);
        if value.Err? then value else After(value.value, Substituted(isSpace, c, rest[k + 1..]))
  }

  lemma AfterTwice(a: string, b: string, rest: Result<string, TemplateError>)
    ensures After(a, After(b, rest)) == After(a + b, rest) && After([], rest) == rest
  {
    if rest.Ok? {
      assert a + (b + rest.value) == (a + b) + rest.value && [] + rest.value == rest.value;
    }
  }

  /** Reads a placeholder name from `start` up to its closing brace, and the position after the brace. */
  method ReadName(template: string, start: nat) returns (name: string, closed: bool, next: nat)
    requires start <= |template|
    ensures closed <==> CloseAt(template[start..]) < |template| - start
    ensures closed ==> name == template[start..][..CloseAt(template[start..])]
                       && next == start + CloseAt(template[start..]) + 1 <= |template|
  {
    name, closed, next := "", false, start;
    while next < |template|
      invariant start <= next <= |template|
      invariant name == template[start..next]
      invariant CloseAt(template[start..]) == next - start + CloseAt(template[next..])
    {
      assert template[next..][1..] == template[next + 1..];
      var c := template[next];
      next := next + 1;
      if c == '}' {
        closed := true;
        return;
      }
      name := name + [c];
    }
  }

  method SubstitutePlaceholders(isSpace: Spaces, c: AclContext, template: string)
      returns (r: Result<string, TemplateError>)
    ensures r == Substituted(isSpace, c, template)
  {
    var out := "";
    var i := 0;
    assert template[0..] == template;
    AfterTwice([], [], Substituted(isSpace, c, template));
    while i < |template|
      invariant 0 <= i <= |template|
      invariant Substituted(isSpace, c, template) == After(out, Substituted(isSpace, c, template[i..]))
      decreases |template| - i
    {
      assert template[i..][1..] == template[i + 1..];
      ghost var tail := Substituted(isSpace, c, template[i + 1..]);
      if template[i] != '{' {
        AfterTwice(out, [template[i]], tail);
        out := out + [template[i]];
        i := i + 1;
        continue;
      }
      var name, closed, next := ReadName(template, i + 1);
      if !closed {
        return Err(UnclosedPlaceholder);
      }
      var raw := PlaceholderValue(isSpace, c, name);
      if raw.Err? {
        return raw;
      }
      assert template[i + 1..][next - i - 1..] == template[next..];
      AfterTwice(out, raw.value, Substituted(isSpace, c, template[next..]));
      out := out + raw.value;
      i := next;
    }
    assert template[i..] == [];
    assert out + [] == out;
    return Ok(out);
  }

  // ----- substitution and tokens -----

  lemma CloseInside(a: string, tail: string)
    requires CloseAt(a) < |a|
    ensures CloseAt(a + tail) == CloseAt(a)
  {
    if a[0] != '}' {
      assert (a + tail)[1..] == a[1..] + tail;
      CloseInside(a[1..], tail);
    }
  }

  lemma CloseOutside(a: string, tail: string)
    requires CloseAt(a) == |a|
    ensures CloseAt(a + tail) == |a| + CloseAt(tail)
  {
    if a == [] {
      assert a + tail == tail;
    } else {
      assert (a + tail)[1..] == a[1..] + tail;
      CloseOutside(a[1..], tail);
    }
  }

  /** Both parts, or nothing. */
  ghost predicate Both(whole: Result<string, TemplateError>, a: Result<string, TemplateError>,
                       b: Result<string, TemplateError>)
  {
    && (whole.Ok? <==> a.Ok? && b.Ok?)
    && (whole.Ok? ==> whole.value == a.value + "." + b.value)
  }

  lemma BothAfter(done: string, whole: Result<string, TemplateError>, a: Result<string, TemplateError>,
                  b: Result<string, TemplateError>)
    requires Both(whole, a, b)
    ensures Both(After(done, whole), After(done, a), b)
  {
  }

  /** A placeholder left open at a dot fails on both sides: no placeholder name holds a dot. */
  lemma OpenAtDot(isSpace: Spaces, c: AclContext, a: string, b: string)
    requires a != [] && a[0] == '{' && CloseAt(a[1..]) == |a| - 1
    ensures Substituted(isSpace, c, a).Err? && Substituted(isSpace, c, a + "." + b).Err?
  {
    var rest := (a + "." + b)[1..];
    assert rest == a[1..] + ("." + b);
    CloseOutside(a[1..], "." + b);
    assert rest[|a| - 1] == '.' && CloseAt("." + b) == 1 + CloseAt(("." + b)[1..]);
    DottedName(isSpace, c, rest[..CloseAt(rest)], |a| - 1);
  }

  lemma DottedName(isSpace: Spaces, c: AclContext, name: string, k: nat)
    requires k < |name| && name[k] == '.'
    ensures PlaceholderValue(isSpace, c, name).Err?
  {
  }

  /** Substitution goes through a dot. */
  lemma {:induction false} ThroughDot(isSpace: Spaces, c: AclContext, a: string, b: string)
    ensures Both(Substituted(isSpace, c, a + "." + b), Substituted(isSpace, c, a), Substituted(isSpace, c, b))
    decreases |a|
  {
    var whole := a + "." + b;
    if a == [] {
      assert whole[1..] == b;
    } else if a[0] != '{' {
      assert whole[1..] == a[1..] + "." + b;
      ThroughDot(isSpace, c, a[1..], b);
      BothAfter([a[0]], Substituted(isSpace, c, whole[1..]), Substituted(isSpace, c, a[1..]),
                Substituted(isSpace, c, b));
    } else if CloseAt(a[1..]) == |a| - 1 {
      OpenAtDot(isSpace, c, a, b);
    } else {
      var k := CloseAt(a[1..]);
      assert whole[1..] == a[1..] + ("." + b);
      CloseInside(a[1..], "." + b);
      assert whole[1..][..k] == a[1..][..k];
      assert whole[1..][k + 1..] == a[1..][k + 1..] + "." + b;
      ThroughDot(isSpace, c, a[1..][k + 1..], b);
      var value := PlaceholderValue(isSpace, c, a[1..][..k]);
      if value.Ok? {
        BothAfter(value.value, Substituted(isSpace, c, whole[1..][k + 1..]), Substituted(isSpace, c, a[1..][k + 1..]),
                  Substituted(isSpace, c, b));
      }
    }
  }

  /** A rendered token has no dot of its own, and is a wildcard or empty only where the template's token was. */
  lemma {:induction false} TokenKeeps(isSpace: Spaces, c: AclContext, t: string)
    requires Substituted(isSpace, c, t).Ok?
    ensures var out := Substituted(isSpace, c, t).value;
            && (Without(t, '.') ==> Without(out, '.'))
            && (out == "*" ==> t == "*") && (out == ">" ==> t == ">") && (out == "" ==> t == "")
    decreases |t|
  {
    if t == [] {
    } else if t[0] != '{' {
      assert t == [t[0]] + t[1..];
      TokenKeeps(isSpace, c, t[1..]);
    } else {
      var k := CloseAt(t[1..]);
      PlaceholderFirst(isSpace, c, t);
      TokenKeeps(isSpace, c, t[1..][k + 1..]);
      var value := PlaceholderValue(isSpace, c, t[1..][..k]).value;
      assert Substituted(isSpace, c, t).value[0] == value[0];
    }
  }

  lemma PlaceholderFirst(isSpace: Spaces, c: AclContext, t: string)
    requires t != [] && t[0] == '{' && Substituted(isSpace, c, t).Ok?
    ensures CloseAt(t[1..]) < |t| - 1
    ensures var k := CloseAt(t[1..]);
            var value := PlaceholderValue(isSpace, c, t[1..][..k]);
            var rest := Substituted(isSpace, c, t[1..][k + 1..]);
            && value.Ok? && rest.Ok? && Substituted(isSpace, c, t).value == value.value + rest.value
            && value.value != [] && value.value[0] != '*' && value.value[0] != '>' && Without(value.value, '.')
  {
  }

  /** The tokens of the template, each substituted. */
  ghost predicate TokenWise(isSpace: Spaces, c: AclContext, tokens: seq<string>, rendered: seq<string>) {
    |rendered| == |tokens| && forall k :: 0 <= k < |tokens| ==> Substituted(isSpace, c, tokens[k]) == Ok(rendered[k])
  }

  ghost predicate AllSubstitute(isSpace: Spaces, c: AclContext, tokens: seq<string>) {
    forall k :: 0 <= k < |tokens| ==> Substituted(isSpace, c, tokens[k]).Ok?
  }

  lemma {:induction false} JoinedTokens(isSpace: Spaces, c: AclContext, tokens: seq<string>)
    requires tokens != [] && AllWithout(tokens, '.')
    ensures Substituted(isSpace, c, Join(tokens, '.')).Ok? <==> AllSubstitute(isSpace, c, tokens)
    ensures Substituted(isSpace, c, Join(tokens, '.')).Ok? ==>
              TokenWise(isSpace, c, tokens, Split(Substituted(isSpace, c, Join(tokens, '.')).value, '.'))
  {
    TokenAlone(isSpace, c, tokens[0]);
    if |tokens| > 1 {
      var rest := tokens[1..];
      JoinedTokens(isSpace, c, rest);
      assert Join(tokens, '.') == tokens[0] + "." + Join(rest, '.');
      ThroughDot(isSpace, c, tokens[0], Join(rest, '.'));
      assert AllSubstitute(isSpace, c, tokens)
        <==> Substituted(isSpace, c, tokens[0]).Ok? && AllSubstitute(isSpace, c, rest) by {
        assert forall k :: 1 <= k < |tokens| ==> tokens[k] == rest[k - 1];
      }
      if AllSubstitute(isSpace, c, tokens) {
        var head := Substituted(isSpace, c, tokens[0]).value;
        SplitHead(head, Substituted(isSpace, c, Join(rest, '.')).value, '.');
      }
    }
  }

  lemma TokenAlone(isSpace: Spaces, c: AclContext, token: string)
    requires Without(token, '.')
    ensures Substituted(isSpace, c, token).Ok? ==>
              Without(Substituted(isSpace, c, token).value, '.')
              && Split(Substituted(isSpace, c, token).value, '.') == [Substituted(isSpace, c, token).value]
  {
    if Substituted(isSpace, c, token).Ok? {
      TokenKeeps(isSpace, c, token);
      SplitHead(Substituted(isSpace, c, token).value, [], '.');
    }
  }

  /** Substitution commutes with splitting at dots: a template can be rendered exactly when each of its tokens can, and
      token by token the result is the rendering of the template's token. */
  lemma SubstitutionCommutes(isSpace: Spaces, c: AclContext, t: string)
    ensures Substituted(isSpace, c, t).Ok? <==> AllSubstitute(isSpace, c, Split(t, '.'))
    ensures Substituted(isSpace, c, t).Ok? ==>
              TokenWise(isSpace, c, Split(t, '.'), Split(Substituted(isSpace, c, t).value, '.'))
  {
    SplitParts(t, '.');
    JoinSplit(t, '.');
    JoinedTokens(isSpace, c, Split(t, '.'));
  }

  // ----- materialised permissions -----

  /** `SubjectPattern::violation` */
  function Violation(isSpace: Spaces, pattern: string): Option<PatternError> {
    if pattern == "" then Some(Empty) else if HasSpace(isSpace, pattern) then Some(Whitespace) else None
  }

  /** A template as a subject pattern. */
  function Pattern(isSpace: Spaces, c: AclContext, t: string): Result<string, TemplateError> {
    var rendered := Substituted(isSpace, c, t);
    if rendered.Err? then rendered
    else
      var violation := Violation(isSpace, rendered.value);
      if violation.Some? then Err(InvalidSubject(violation.value)) else rendered
  }

  /** All templates in order, or the first error. */
  function Patterns(isSpace: Spaces, c: AclContext, templates: seq<string>): Result<seq<string>, TemplateError> {
    if templates == [] then Ok([])
    else
      var n := |templates| - 1;
      var before := Patterns(isSpace, c, templates[..n]);
      if before.Err? then before
      else
        var last := Pattern(isSpace, c, templates[n]);
        if last.Err? then Err(last.error) else Ok(before.value + [last.value])
  }

  lemma {:induction false} FirstErrorStays(isSpace: Spaces, c: AclContext, templates: seq<string>, i: nat)
    requires i <= |templates| && Patterns(isSpace, c, templates[..i]).Err?
    ensures Patterns(isSpace, c, templates) == Patterns(isSpace, c, templates[..i])
  {
    if i < |templates| {
      var n := |templates| - 1;
      assert templates[..n][..i] == templates[..i];
      FirstErrorStays(isSpace, c, templates[..n], i);
    } else {
      assert templates[..i] == templates;
    }
  }

  method MaterializeList(isSpace: Spaces, c: AclContext, templates: seq<string>)
      returns (r: Result<seq<string>, TemplateError>)
    ensures r == Patterns(isSpace, c, templates)
  {
    var out: seq<string> := [];
    for i := 0 to |templates|
      invariant Patterns(isSpace, c, templates[..i]) == Ok(out)
    {
      assert templates[..i + 1][..i] == templates[..i];
      var rendered := SubstitutePlaceholders(isSpace, c, templates[i]);
      if rendered.Err? {
        FirstErrorStays(isSpace, c, templates, i + 1);
        return Err(rendered.error);
      }
      var violation := Violation(isSpace, rendered.value);
      if violation.Some? {
        FirstErrorStays(isSpace, c, templates, i + 1);
        return Err(InvalidSubject(violation.value));
      }
      out := out + [rendered.value];
    }
    assert templates[..|templates|] == templates;
    return Ok(out);
  }

  datatype SubjectAclTemplate = SubjectAclTemplate(publish: seq<string>, subscribe: seq<string>)

  datatype IssuedPermissions = IssuedPermissions(publishAllow: seq<string>, subscribeAllow: seq<string>)

  /** `p` holds the pattern of each template, in order. */
  ghost predicate PatternWise(isSpace: Spaces, c: AclContext, templates: seq<string>, patterns: seq<string>) {
    |patterns| == |templates| && forall k :: 0 <= k < |templates| ==>
      Pattern(isSpace, c, templates[k]) == Ok(patterns[k])
  }

  lemma {:induction false} PatternsAre(isSpace: Spaces, c: AclContext, templates: seq<string>)
    ensures Patterns(isSpace, c, templates).Ok? <==>
              forall k :: 0 <= k < |templates| ==> Pattern(isSpace, c, templates[k]).Ok?
    ensures Patterns(isSpace, c, templates).Ok? ==>
              PatternWise(isSpace, c, templates, Patterns(isSpace, c, templates).value)
  {
    if templates != [] {
      var n := |templates| - 1;
      PatternsAre(isSpace, c, templates[..n]);
      assert forall k :: 0 <= k < n ==> templates[..n][k] == templates[k];
    }
  }

  /** Grants exactly one pattern per template, and grants nothing at all unless every template has a pattern. */
  method Materialize(isSpace: Spaces, t: SubjectAclTemplate, c: AclContext)
      returns (r: Result<IssuedPermissions, TemplateError>)
    ensures r.Ok? <==> (forall k :: 0 <= k < |t.publish| ==> Pattern(isSpace, c, t.publish[k]).Ok?)
                       && (forall k :: 0 <= k < |t.subscribe| ==> Pattern(isSpace, c, t.subscribe[k]).Ok?)
    ensures r.Ok? ==> PatternWise(isSpace, c, t.publish, r.value.publishAllow)
                      && PatternWise(isSpace, c, t.subscribe, r.value.subscribeAllow)
    ensures Patterns(isSpace, c, t.publish).Err? ==> r == Err(Patterns(isSpace, c, t.publish).error)
    ensures Patterns(isSpace, c, t.publish).Ok? && Patterns(isSpace, c, t.subscribe).Err? ==>
              r == Err(Patterns(isSpace, c, t.subscribe).error)
  {
    PatternsAre(isSpace, c, t.publish);
    PatternsAre(isSpace, c, t.subscribe);
    var publishAllow := MaterializeList(isSpace, c, t.publish);
    if publishAllow.Err? {
      return Err(publishAllow.error);
    }
    var subscribeAllow := MaterializeList(isSpace, c, t.subscribe);
    if subscribeAllow.Err? {
      return Err(subscribeAllow.error);
    }
    return Ok(IssuedPermissions(publishAllow.value, subscribeAllow.value));
  }

  // ----- what a rendered pattern can match -----

  /** A NATS pattern matches a subject: `*` stands for one token, a final `>` for one or more. */
  predicate Matches(pattern: seq<string>, subject: seq<string>) {
    if pattern == [] then subject == []
    else if pattern == [">"] then subject != []
    else subject != [] && (pattern[0] == "*" || pattern[0] == subject[0]) && Matches(pattern[1..], subject[1..])
  }

  /** The template's tokens with a wildcard for every token that holds a placeholder. */
  function Widened(tokens: seq<string>): seq<string> {
    seq(|tokens|, k requires 0 <= k < |tokens| => if '{' in tokens[k] then "*" else tokens[k])
  }

  lemma {:induction false} LiteralStays(isSpace: Spaces, c: AclContext, t: string)
    requires '{' !in t
    ensures Substituted(isSpace, c, t) == Ok(t)
  {
    if t != [] {
      assert t == [t[0]] + t[1..];
      LiteralStays(isSpace, c, t[1..]);
    }
  }

  lemma {:induction false} WidenedMatches(isSpace: Spaces, c: AclContext, tokens: seq<string>, rendered: seq<string>,
                                          subject: seq<string>)
    requires TokenWise(isSpace, c, tokens, rendered) && Matches(rendered, subject)
    ensures Matches(Widened(tokens), subject)
  {
    if tokens != [] {
      assert Substituted(isSpace, c, tokens[0]) == Ok(rendered[0]);
      TokenKeeps(isSpace, c, tokens[0]);
      if '{' !in tokens[0] {
        LiteralStays(isSpace, c, tokens[0]);
      }
      if rendered == [">"] {
        assert Widened(tokens) == [">"];
      } else {
        WidenedMatches(isSpace, c, tokens[1..], rendered[1..], subject[1..]);
        assert Widened(tokens)[1..] == Widened(tokens[1..]);
      }
    }
  }

  /** A rendered pattern matches no subject that the template, with wildcards for its placeholders, would not match. */
  lemma NeverBroader(isSpace: Spaces, c: AclContext, t: string, subject: seq<string>)
    requires Substituted(isSpace, c, t).Ok? && Matches(Split(Substituted(isSpace, c, t).value, '.'), subject)
    ensures Matches(Widened(Split(t, '.')), subject)
  {
    SubstitutionCommutes(isSpace, c, t);
    WidenedMatches(isSpace, c, Split(t, '.'), Split(Substituted(isSpace, c, t).value, '.'), subject);
  }

  lemma {:induction false} MatchedAt(pattern: seq<string>, subject: seq<string>, k: nat)
    requires Matches(pattern, subject) && k < |pattern| && pattern[k] != "*" && pattern[k] != ">"
    ensures k < |subject| && subject[k] == pattern[k]
  {
    if k > 0 {
      MatchedAt(pattern[1..], subject[1..], k - 1);
    }
  }

  /** Where the template names the caller, every subject the rendered pattern matches names that very caller. */
  lemma CallerPinned(isSpace: Spaces, c: AclContext, t: string, subject: seq<string>, k: nat)
    requires Substituted(isSpace, c, t).Ok? && Matches(Split(Substituted(isSpace, c, t).value, '.'), subject)
    requires k < |Split(t, '.')| && Split(t, '.')[k] == "{caller}"
    ensures k < |subject| && Some(subject[k]) == c.caller
  {
    SubstitutionCommutes(isSpace, c, t);
    var rendered := Split(Substituted(isSpace, c, t).value, '.');
    var token := Split(t, '.')[k];
    assert Substituted(isSpace, c, token) == Ok(rendered[k]);
    CallerToken(isSpace, c);
    MatchedAt(rendered, subject, k);
  }

  lemma CallerToken(isSpace: Spaces, c: AclContext)
    requires Substituted(isSpace, c, "{caller}").Ok?
    ensures Some(Substituted(isSpace, c, "{caller}").value) == c.caller
    ensures Substituted(isSpace, c, "{caller}").value != "*" && Substituted(isSpace, c, "{caller}").value != ">"
  {
    var t := "{caller}";
    var name := "caller";
    assert t[1..] == name + "}";
    CloseOutside(name, "}");
    assert '}' !in name;
    assert CloseAt(t[1..]) == |name| && t[1..][..|name|] == name && t[1..][|name| + 1..] == [];
    PlaceholderFirst(isSpace, c, t);
    var value := PlaceholderValue(isSpace, c, name).value;
    assert value + [] == value;
  }
}
