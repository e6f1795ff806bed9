/** Protobuf identifiers as WIT identifiers. */
module Identifiers {
  import opened Prelude
  import opened PackageNames

  predicate IsSeparator(c: char) { c == '_' || c == '-' || c == '.' }

  predicate IsAlphaNumeric(c: char) { IsLower(c) || IsUpper(c) || IsDigit(c) }

  function ToLower(c: char): char {
    if IsUpper(c) then c + ('a' - 'A') else c
  }

  // ----- what normalisation yields, position by position -----

  /** The upper-case letter at `i` starts a word: it follows a lower-case letter or digit, or precedes a lower-case
      letter. */
  predicate CaseBreak(s: string, i: nat)
    requires i < |s|
  {
    IsUpper(s[i]) && ((i > 0 && (IsLower(s[i - 1]) || IsDigit(s[i - 1]))) || (i + 1 < |s| && IsLower(s[i + 1])))
  }

  /** A hyphen belongs before the letter or digit at `i`, if anything precedes it in the output. */
  predicate WordBreak(s: string, i: nat)
    requires i < |s|
  {
    (i > 0 && IsSeparator(s[i - 1])) || CaseBreak(s, i)
  }

  /** The words of the first `i` characters, in lower case and joined by single hyphens. */
  function Rendered(s: string, i: nat): string
    requires i <= |s|
  {
    if i == 0 then []
    else
      var before := Rendered(s, i - 1);
      if !IsAlphaNumeric(s[i - 1]) then before
      else before + (if before != [] && WordBreak(s, i - 1) then "-" else "") + [ToLower(s[i - 1])]
  }

  function Words(s: string): string { Rendered(s, |s|) }

  predicate Supported(s: string) {
    forall i :: 0 <= i < |s| ==> IsSeparator(s[i]) || IsAlphaNumeric(s[i])
  }

  /** The normalised identifier: none for unsupported characters, for no letter or digit at all, or for words that
      start with a digit. */
  function Normalized(s: string): Option<string> {
    if !Supported(s) || Words(s) == [] || IsDigit(Words(s)[0]) then None
    else Some(EscapeKeyword(Words(s)))
  }

  // ----- the loop -----

  function TrimLeft(s: string): string {
    if s != [] && s[0] == '-' then TrimLeft(s[1..]) else s
  }

  function TrimRight(s: string): string {
    if s != [] && s[|s| - 1] == '-' then TrimRight(s[..|s| - 1]) else s
  }

  /** `strings.Trim(s, "-")` */
  function TrimHyphens(s: string): string { TrimRight(TrimLeft(s)) }

  /** What the loop has written after `i` characters: a separator shows as a hyphen at once. */
  function Written(s: string, i: nat): string
    requires i <= |s|
  {
    Rendered(s, i) + (if i > 0 && IsSeparator(s[i - 1]) && Rendered(s, i) != [] then "-" else "")
  }

  method NormalizeIdentifier(input: string) returns (r: Option<string>)
    ensures r == Normalized(input)
  {
    if input == "" {
      return None;
    }
    var output := "";
    var lastByte := '\0';
    for index := 0 to |input|
      invariant Supported(input[..index])
      invariant output == Written(input, index)
      invariant output != [] ==> lastByte == output[|output| - 1]
    {
      RenderedShape(input, index);
      assert input[..index + 1] == input[..index] + [input[index]];
      var current := input[index];
      if current == '_' || current == '-' || current == '.' {
        if |output| > 0 && lastByte != '-' {
          output := output + "-";
          lastByte := '-';
        }
      } else if !IsAlphaNumeric(current) {
        return None;
      } else {
        if IsUpper(current) {
          var previousIsLowerOrDigit := index > 0 && (IsLower(input[index - 1]) || IsDigit(input[index - 1]));
          var nextIsLower := index + 1 < |input| && IsLower(input[index + 1]);
          if |output| > 0 && lastByte != '-' && (previousIsLowerOrDigit || nextIsLower) {
            output := output + "-";
          }
          current := current + ('a' - 'A');
        }
        output := output + [current];
        lastByte := current;
      }
    }
    assert input[..|input|] == input;
    RenderedShape(input, |input|);
    TrimWritten(input);
    var normalized := TrimHyphens(output);
    if normalized == "" || IsDigit(normalized[0]) {
      return None;
    }
    return Some(EscapeKeyword(normalized));
  }

  // ----- shape of the result -----

  /** Lower-case letters and digits in words separated by single hyphens. */
  predicate Kebab(s: string) {
    && PlainOrHyphen(s)
    && (s != [] ==> s[0] != '-' && s[|s| - 1] != '-')
    && (forall j :: 0 <= j < |s| - 1 ==> s[j] != '-' || s[j + 1] != '-')
  }

  lemma {:induction false} RenderedShape(s: string, i: nat)
    requires i <= |s|
    ensures Kebab(Rendered(s, i))
  {
    if i > 0 {
      RenderedShape(s, i - 1);
      if IsAlphaNumeric(s[i - 1]) {
        KebabAppend(Rendered(s, i - 1), ToLower(s[i - 1]), Rendered(s, i - 1) != [] && WordBreak(s, i - 1));
      }
    }
  }

  lemma KebabAppend(s: string, c: char, hyphen: bool)
    requires Kebab(s) && (IsLower(c) || IsDigit(c)) && (hyphen ==> s != [])
    ensures Kebab(s + (if hyphen then "-" else "") + [c])
  {
  }

  lemma TrimWritten(s: string)
    requires Kebab(Words(s))
    ensures TrimHyphens(Written(s, |s|)) == Words(s)
  {
    var w := Words(s);
    if Written(s, |s|) != w {
      assert Written(s, |s|)[..|w|] == w;
      assert TrimRight(w) == w;
    }
  }

  /** An accepted identifier, freed of its keyword escape, is in kebab case, is not empty and starts with a letter. */
  lemma NormalizedShape(s: string)
    requires Normalized(s).Some?
    ensures var n := TrimPercent(Normalized(s).value);
            Kebab(n) && n != [] && IsLower(n[0]) && Normalized(s).value == EscapeKeyword(n)
  {
    RenderedShape(s, |s|);
    TrimEscaped(Words(s));
  }

  // ----- nothing is lost or invented -----

  function Alphanumerics(s: string): string {
    if s == [] then []
    else (if IsAlphaNumeric(s[0]) then [ToLower(s[0])] else []) + Alphanumerics(s[1..])
  }

  lemma {:induction false} AlphanumericsConcat(s: string, t: string)
    ensures Alphanumerics(s + t) == Alphanumerics(s) + Alphanumerics(t)
  {
    if s == [] {
      assert s + t == t;
    } else {
      assert (s + t)[0] == s[0] && (s + t)[1..] == s[1..] + t;
      AlphanumericsConcat(s[1..], t);
      ghost var first := if IsAlphaNumeric(s[0]) then [ToLower(s[0])] else [];
      assert Alphanumerics(s + t) == first + Alphanumerics((s + t)[1..]);
    }
  }

  /** Hyphens apart, the result is the letters and digits of the input in lower case and in order. */
  lemma {:induction false} RenderedKeeps(s: string, i: nat)
    requires i <= |s|
    ensures Alphanumerics(Rendered(s, i)) == Alphanumerics(s[..i])
  {
    if i > 0 {
      RenderedKeeps(s, i - 1);
      var c := s[i - 1];
      assert s[..i] == s[..i - 1] + [c];
      AlphanumericsConcat(s[..i - 1], [c]);
      assert Alphanumerics([c]) == if IsAlphaNumeric(c) then [ToLower(c)] else [];
      if IsAlphaNumeric(c) {
        var before := Rendered(s, i - 1);
        var hyphen := if before != [] && WordBreak(s, i - 1) then "-" else "";
        AlphanumericsConcat(before + hyphen, [ToLower(c)]);
        AlphanumericsConcat(before, hyphen);
        assert Alphanumerics(hyphen) == [];
        assert Alphanumerics([ToLower(c)]) == [ToLower(c)];
      }
    }
  }

  lemma NormalizedKeeps(s: string)
    requires Normalized(s).Some?
    ensures Alphanumerics(TrimPercent(Normalized(s).value)) == Alphanumerics(s)
  {
    RenderedKeeps(s, |s|);
    RenderedShape(s, |s|);
    TrimEscaped(Words(s));
    assert s[..|s|] == s;
  }

  // ----- normalising twice, and in two parts -----

  lemma {:induction false} KebabIsRendered(s: string, i: nat)
    requires Kebab(s) && i <= |s|
    ensures Written(s, i) == s[..i]
  {
    if i > 0 {
      KebabIsRendered(s, i - 1);
      assert s[..i] == s[..i - 1] + [s[i - 1]];
    }
  }

  /** Normalising a normalised identifier, freed of its escape, changes nothing. */
  lemma Idempotent(s: string)
    requires Normalized(s).Some?
    ensures Normalized(TrimPercent(Normalized(s).value)) == Normalized(s)
  {
    var n := Words(s);
    RenderedShape(s, |s|);
    TrimEscaped(n);
    KebabIsRendered(n, |n|);
    assert n[..|n|] == n;
  }

  lemma {:induction false} RenderedPrefix(a: string, o: string, i: nat)
    requires i <= |a|
    ensures Rendered(a + "." + o, i) == Rendered(a, i)
  {
    if i > 0 {
      RenderedPrefix(a, o, i - 1);
      var s := a + "." + o;
      assert forall j :: 0 <= j < |a| ==> s[j] == a[j];
      assert s[|a|] == '.';
    }
  }

  lemma {:induction false} RenderedTail(a: string, b: string, o: string, j: nat)
    requires Words(a) == Words(b) != [] && j <= |o|
    ensures Rendered(a + "." + o, |a| + 1 + j) == Rendered(b + "." + o, |b| + 1 + j)
    ensures Rendered(a + "." + o, |a| + 1 + j) != []
  {
    var s, t := a + "." + o, b + "." + o;
    assert s[|a|] == '.' && t[|b|] == '.';
    if j == 0 {
      RenderedPrefix(a, o, |a|);
      RenderedPrefix(b, o, |b|);
    } else {
      RenderedTail(a, b, o, j - 1);
      assert s[|a| + j] == o[j - 1] == t[|b| + j];
      assert j > 1 ==> s[|a| + j - 1] == o[j - 2] == t[|b| + j - 1];
      assert j < |o| ==> s[|a| + j + 1] == o[j] == t[|b| + j + 1];
      assert WordBreak(s, |a| + j) == WordBreak(t, |b| + j);
    }
  }

  lemma SupportedJoin(a: string, o: string)
    ensures Supported(a + "." + o) <==> Supported(a) && Supported(o)
  {
    var s := a + "." + o;
    assert forall i :: 0 <= i < |a| ==> s[i] == a[i];
    assert forall i :: 0 <= i < |o| ==> s[|a| + 1 + i] == o[i];
  }

  /** For an accepted message name `m`, normalising the already normalised `m` joined to `o` by a dot gives the same
      identifier, or the same refusal, as normalising the two names joined by a dot. */
  lemma Compositional(m: string, o: string)
    requires Normalized(m).Some?
    ensures Normalized(TrimPercent(Normalized(m).value) + "." + o) == Normalized(m + "." + o)
  {
    var n := Words(m);
    RenderedShape(m, |m|);
    TrimEscaped(n);
    KebabIsRendered(n, |n|);
    assert n[..|n|] == n;
    RenderedTail(n, m, o, |o|);
    SupportedJoin(n, o);
    SupportedJoin(m, o);
    assert |n + "." + o| == |n| + 1 + |o| && |m + "." + o| == |m| + 1 + |o|;
  }
}
