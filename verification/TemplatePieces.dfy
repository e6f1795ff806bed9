/** Templates piece by piece: what each yields, and which fault is reported. */
module TemplatePieces {
  import opened Prelude
  import opened Text
  import opened Template

  /** Text that is copied, or a placeholder. */
  datatype Piece = Literal(text: string) | Hole(name: string)

  function WrittenAs(p: Piece): string {
    match p
    case Literal(text) => text
    case Hole(name) => "{" + name + "}"
  }

  function AllWritten(ps: seq<Piece>): string {
    if ps == [] then "" else WrittenAs(ps[0]) + AllWritten(ps[1..])
  }

  /** A literal opens no placeholder, and a name closes none. */
  predicate Proper(p: Piece) {
    match p
    case Literal(text) => '{' !in text
    case Hole(name) => '}' !in name
  }

  /** The template consists of the pieces and, where it is cut off inside a placeholder, of the part that is left. */
  predicate Cut(t: string, ps: seq<Piece>, left: string) {
    && t == AllWritten(ps) + left && (forall k :: 0 <= k < |ps| ==> Proper(ps[k]))
    && (left == "" || (left[0] == '{' && '}' !in left))
  }

  lemma {:induction false} EveryTemplateCuts(t: string) returns (ps: seq<Piece>, left: string)
    ensures Cut(t, ps, left)
    decreases |t|
  {
    if t == "" {
      ps, left := [], "";
    } else if t[0] == '{' && CloseAt(t[1..]) == |t| - 1 {
      ps, left := [], t;
      assert t == "{" + t[1..] && t[1..][..CloseAt(t[1..])] == t[1..];
    } else {
      var p, rest := FirstPiece(t);
      var more;
      more, left := EveryTemplateCuts(rest);
      CutPush(p, rest, more, left);
      ps := [p] + more;
    }
  }

  lemma FirstPiece(t: string) returns (p: Piece, rest: string)
    requires t != "" && (t[0] == '{' ==> CloseAt(t[1..]) < |t| - 1)
    ensures Proper(p) && t == WrittenAs(p) + rest && |rest| < |t|
  {
    if t[0] == '{' {
      var k := CloseAt(t[1..]);
      p, rest := Hole(t[1..][..k]), t[1..][k + 1..];
      assert t == "{" + t[1..][..k] + "}" + rest;
    } else {
      p, rest := Literal([t[0]]), t[1..];
      assert t == [t[0]] + rest;
    }
  }

  lemma CutPush(p: Piece, t: string, ps: seq<Piece>, left: string)
    requires Proper(p) && Cut(t, ps, left)
    ensures Cut(WrittenAs(p) + t, [p] + ps, left)
  {
    var all := [p] + ps;
    forall k | 0 <= k < |all|
      ensures Proper(all[k])
    {
      assert k > 0 ==> all[k] == ps[k - 1];
    }
    assert AllWritten(all) == WrittenAs(p) + AllWritten(ps) by {
      assert all[1..] == ps;
    }
    assert WrittenAs(p) + (AllWritten(ps) + left) == WrittenAs(p) + AllWritten(ps) + left;
  }

  // ----- what a placeholder stands for -----

  function ValueIn(c: AclContext, name: string): Option<string> {
    if name == "caller" then c.caller
    else if name == "aud" then c.aud
    else if name == "sub" then c.sub
    else if name == "iss" then c.iss
    else None
  }

  /** What is wrong with a placeholder: its name, a missing value, or a value that is empty or would leave its token. */
  function FaultOf(isSpace: Spaces, c: AclContext, p: Piece): Option<TemplateError> {
    if p.Literal? then None
    else if p.name != "caller" && p.name != "aud" && p.name != "sub" && p.name != "iss" then
      Some(UnknownPlaceholder(p.name))
    else
      match ValueIn(c, p.name)
      case None => Some(MissingValue(p.name))
      case Some(v) =>
        if v == "" || exists j :: 0 <= j < |v| && (v[j] == '.' || v[j] == '*' || v[j] == '>' || isSpace(v[j]))
        then Some(InvalidPlaceholderValue(p.name)) else None
  }

  lemma FaultExact(isSpace: Spaces, c: AclContext, name: string)
    ensures var fault := FaultOf(isSpace, c, Hole(name));
            PlaceholderValue(isSpace, c, name)
            == if fault.Some? then Err(fault.value) else Ok(ValueIn(c, name).GetOr(""))
  {
  }

  function Filling(c: AclContext, p: Piece): string {
    if p.Literal? then p.text else ValueIn(c, p.name).GetOr("")
  }

  function Filled(c: AclContext, ps: seq<Piece>): string {
    if ps == [] then "" else Filling(c, ps[0]) + Filled(c, ps[1..])
  }

  /** The first fault among the pieces. */
  function FirstFault(isSpace: Spaces, c: AclContext, ps: seq<Piece>): Option<TemplateError> {
    if ps == [] then None
    else
      var fault := FaultOf(isSpace, c, ps[0]);
      if fault.Some? then fault else FirstFault(isSpace, c, ps[1..])
  }

  lemma {:induction false} LiteralFirst(isSpace: Spaces, c: AclContext, text: string, rest: string)
    requires '{' !in text
    ensures Substituted(isSpace, c, text + rest) == After(text, Substituted(isSpace, c, rest))
  {
    if text == "" {
      assert text + rest == rest;
      AfterTwice([], [], Substituted(isSpace, c, rest));
    } else {
      assert (text + rest)[1..] == text[1..] + rest && [text[0]] + text[1..] == text;
      LiteralFirst(isSpace, c, text[1..], rest);
      AfterTwice([text[0]], text[1..], Substituted(isSpace, c, rest));
    }
  }

  lemma {:induction false} NameCloses(name: string, rest: string)
    requires '}' !in name
    ensures CloseAt(name + "}" + rest) == |name| && CloseAt(name) == |name|
  {
    var t := name + "}" + rest;
    if name != "" {
      assert t[1..] == name[1..] + "}" + rest;
      NameCloses(name[1..], rest);
    }
  }

  lemma HoleFirst(isSpace: Spaces, c: AclContext, name: string, rest: string)
    requires '}' !in name
    ensures var fault := FaultOf(isSpace, c, Hole(name));
            Substituted(isSpace, c, "{" + name + "}" + rest)
            == if fault.Some? then Err(fault.value)
               else After(ValueIn(c, name).GetOr(""), Substituted(isSpace, c, rest))
  {
    var t := "{" + name + "}" + rest;
    assert t[1..] == name + "}" + rest;
    NameCloses(name, rest);
    assert t[1..][..|name|] == name && t[1..][|name| + 1..] == rest;
    FaultExact(isSpace, c, name);
  }

  lemma PieceFirst(isSpace: Spaces, c: AclContext, p: Piece, rest: string)
    requires Proper(p)
    ensures var fault := FaultOf(isSpace, c, p);
            Substituted(isSpace, c, WrittenAs(p) + rest)
            == if fault.Some? then Err(fault.value) else After(Filling(c, p), Substituted(isSpace, c, rest))
  {
    match p
    case Literal(text) => LiteralFirst(isSpace, c, text, rest);
    case Hole(name) => HoleFirst(isSpace, c, name, rest);
  }

  lemma LeftOpen(isSpace: Spaces, c: AclContext, left: string)
    requires left != "" && left[0] == '{' && '}' !in left
    ensures Substituted(isSpace, c, left) == Err(UnclosedPlaceholder)
  {
    NameCloses(left[1..], "");
  }

  /** Rendering a template: the first fault among its placeholders is reported, in order; where there is none, a
      placeholder left open is; otherwise every placeholder gives way to its value and all else is copied. */
  lemma {:induction false} RendersExactly(isSpace: Spaces, c: AclContext, t: string, ps: seq<Piece>, left: string)
    requires Cut(t, ps, left)
    ensures var fault := FirstFault(isSpace, c, ps);
            Substituted(isSpace, c, t)
            == if fault.Some? then Err(fault.value)
               else if left != "" then Err(UnclosedPlaceholder)
               else Ok(Filled(c, ps))
    decreases |ps|
  {
    if ps == [] {
      assert t == left;
      if left != "" {
        LeftOpen(isSpace, c, left);
      }
    } else {
      var rest := AllWritten(ps[1..]) + left;
      assert t == WrittenAs(ps[0]) + rest;
      assert Cut(rest, ps[1..], left);
      RendersExactly(isSpace, c, rest, ps[1..], left);
      PieceFirst(isSpace, c, ps[0], rest);
    }
  }

  /** A rendered template is a pattern unless it is empty or holds whitespace. */
  lemma PatternExactly(isSpace: Spaces, c: AclContext, t: string)
    ensures var rendered, pattern := Substituted(isSpace, c, t), Pattern(isSpace, c, t);
            if rendered.Err? then pattern == rendered
            else if rendered.value == "" then pattern == Err(InvalidSubject(Empty))
            else if exists j :: 0 <= j < |rendered.value| && isSpace(rendered.value[j]) then
              pattern == Err(InvalidSubject(Whitespace))
            else pattern == rendered
  {
  }

  // ----- tokens that are placeholders -----

  /** Where a token of the template is a placeholder, every subject the rendered pattern matches has the very value of
      the placeholder there. */
  lemma PlaceholderPinned(isSpace: Spaces, c: AclContext, t: string, subject: seq<string>, k: nat, name: string)
    requires Substituted(isSpace, c, t).Ok? && Matches(Split(Substituted(isSpace, c, t).value, '.'), subject)
    requires k < |Split(t, '.')| && Split(t, '.')[k] == "{" + name + "}" && '}' !in name
    ensures k < |subject| && ValueIn(c, name) == Some(subject[k])
  {
    SubstitutionCommutes(isSpace, c, t);
    var rendered := Split(Substituted(isSpace, c, t).value, '.');
    TokenPinned(isSpace, c, name, rendered[k]);
    MatchedAt(rendered, subject, k);
  }

  lemma TokenPinned(isSpace: Spaces, c: AclContext, name: string, out: string)
    requires '}' !in name && Substituted(isSpace, c, "{" + name + "}") == Ok(out)
    ensures ValueIn(c, name) == Some(out) && out != "*" && out != ">"
  {
    HoleFirst(isSpace, c, name, "");
    assert "{" + name + "}" + "" == "{" + name + "}";
    assert out == ValueIn(c, name).GetOr("") + "" == ValueIn(c, name).GetOr("");
    assert ("{" + name + "}")[0] == '{';
    TokenKeeps(isSpace, c, "{" + name + "}");
  }
}
