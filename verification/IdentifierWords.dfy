/** Where the hyphens of a normalised identifier stand, and which inputs have one. */
module IdentifierWords {
  import opened PackageNames
  import opened Identifiers

  predicate SmallLetter(c: char) { 'a' <= c <= 'z' }

  predicate CapitalLetter(c: char) { 'A' <= c <= 'Z' }

  predicate Digit(c: char) { '0' <= c <= '9' }

  predicate LetterOrDigit(c: char) { SmallLetter(c) || CapitalLetter(c) || Digit(c) }

  /** Where the letters and digits among the first `n` characters stand. */
  function PositionsTo(s: string, n: nat): (p: seq<nat>)
    requires n <= |s|
    ensures Upwards(p, n)
  {
    if n == 0 then []
    else if LetterOrDigit(s[n - 1]) then PositionsTo(s, n - 1) + [n - 1]
    else PositionsTo(s, n - 1)
  }

  /** Where the letters and digits stand. */
  function Positions(s: string): seq<nat> { PositionsTo(s, |s|) }

  /** Increasing positions below `n`. */
  predicate Upwards(p: seq<nat>, n: nat) {
    (forall k :: 0 <= k < |p| ==> p[k] < n) && (forall j, k :: 0 <= j < k < |p| ==> p[j] < p[k])
  }

  /** Letters and digits stand there and nowhere else. */
  lemma {:induction false} PositionsExactly(s: string, n: nat, i: nat)
    requires i < n <= |s|
    ensures i in PositionsTo(s, n) <==> LetterOrDigit(s[i])
  {
    if i < n - 1 {
      PositionsExactly(s, n - 1, i);
    }
  }

  lemma {:induction false} PositionsAgree(s: string, t: string, n: nat)
    requires n <= |s| && n <= |t| && s[..n] == t[..n]
    ensures PositionsTo(s, n) == PositionsTo(t, n)
  {
    if n > 0 {
      assert s[n - 1] == s[..n][n - 1] == t[n - 1];
      assert s[..n - 1] == s[..n][..n - 1] == t[..n - 1];
      PositionsAgree(s, t, n - 1);
    }
  }

  /** Of two neighbouring letters or digits the one at `j` starts a word: other characters lie between them, or it is a
      capital that follows a small letter or digit, or a capital that a small letter follows. */
  predicate StartsWord(s: string, i: nat, j: nat)
    requires i < j < |s|
  {
    || i + 1 < j
    || (CapitalLetter(s[j]) && (SmallLetter(s[i]) || Digit(s[i])))
    || (CapitalLetter(s[j]) && j + 1 < |s| && SmallLetter(s[j + 1]))
  }

  /** `d` is `c`, or the small letter to the capital `c`. */
  predicate Lowered(c: char, d: char) {
    if CapitalLetter(c) then SmallLetter(d) && d as int - 'a' as int == c as int - 'A' as int else d == c
  }

  /** The first letter or digit of `s` begins `n` and the last one ends it; each is followed by the next one, with a
      single hyphen between them exactly where a word starts. */
  ghost predicate Spelled(s: string, p: seq<nat>, n: string, q: seq<nat>) {
    && Upwards(p, |s|) && Upwards(q, |n|) && |p| == |q|
    && (if q == [] then n == [] else q[0] == 0 && q[|q| - 1] == |n| - 1)
    && (forall k :: 0 <= k < |q| ==> Lowered(s[p[k]], n[q[k]]))
    && (forall j, k :: 0 <= j < k < |q| && k == j + 1 ==> Next(s, p[j], p[k], n, q[j], q[k]))
  }

  predicate Next(s: string, i: nat, j: nat, n: string, a: nat, b: nat)
    requires i < j < |s| && a < b < |n|
  {
    if StartsWord(s, i, j) then b == a + 2 && n[a + 1] == '-' else b == a + 1
  }

  lemma PositionsAppend(n: string, hyphen: bool, c: char)
    requires LetterOrDigit(c)
    ensures var all := n + (if hyphen then "-" else "") + [c];
            Positions(all) == Positions(n) + [|all| - 1]
  {
    var all := n + (if hyphen then "-" else "") + [c];
    assert all[..|n|] == n[..|n|];
    PositionsAgree(all, n, |n|);
    assert hyphen ==> all[|n|] == '-';
    assert PositionsTo(all, |all| - 1) == Positions(n);
  }

  /** The last letter or digit before `i` is followed by `i` directly or through separators. */
  lemma LastBefore(s: string, i: nat)
    requires i < |s| && Supported(s) && PositionsTo(s, i) != []
    ensures var p := PositionsTo(s, i);
            p[|p| - 1] + 1 < i <==> IsSeparator(s[i - 1])
  {
    var p := PositionsTo(s, i);
    PositionsExactly(s, i, i - 1);
    assert p[|p| - 1] in p;
  }

  /** Position by position, a word break is the start of a word. */
  lemma BreakStarts(s: string, i: nat)
    requires i < |s| && Supported(s) && LetterOrDigit(s[i]) && PositionsTo(s, i) != []
    ensures var p := PositionsTo(s, i); WordBreak(s, i) <==> StartsWord(s, p[|p| - 1], i)
  {
    LastBefore(s, i);
  }

  lemma SpelledAppend(s: string, p: seq<nat>, n: string, q: seq<nat>, i: nat, hyphen: bool, d: char)
    requires i < |s| && Upwards(p, i) && Spelled(s, p, n, q) && Lowered(s[i], d)
    requires hyphen <==> p != [] && StartsWord(s, p[|p| - 1], i)
    ensures var all := n + (if hyphen then "-" else "") + [d];
            Spelled(s, p + [i], all, q + [|all| - 1])
  {
    var all := n + (if hyphen then "-" else "") + [d];
    var pp, qq := p + [i], q + [|all| - 1];
    assert forall k :: 0 <= k < |n| ==> all[k] == n[k];
    assert hyphen ==> all[|n|] == '-';
    forall j, k | 0 <= j < k < |qq| && k == j + 1
      ensures Next(s, pp[j], pp[k], all, qq[j], qq[k])
    {
      if k < |q| {
        assert Next(s, p[j], p[k], n, q[j], q[k]);
      }
    }
  }

  lemma BothEmpty(s: string, p: seq<nat>, n: string, q: seq<nat>)
    requires Spelled(s, p, n, q)
    ensures n == [] <==> p == []
    ensures p != [] ==> Lowered(s[p[0]], n[0])
  {
    assert q != [] ==> Lowered(s[p[0]], n[q[0]]);
  }

  lemma {:induction false} RenderedSpelled(s: string, i: nat)
    requires i <= |s| && Supported(s)
    ensures Spelled(s, PositionsTo(s, i), Rendered(s, i), Positions(Rendered(s, i)))
  {
    if i > 0 {
      RenderedSpelled(s, i - 1);
      if LetterOrDigit(s[i - 1]) {
        OneMoreSpelled(s, i - 1);
      }
    }
  }

  lemma OneMoreSpelled(s: string, i: nat)
    requires i < |s| && Supported(s) && LetterOrDigit(s[i])
    requires Spelled(s, PositionsTo(s, i), Rendered(s, i), Positions(Rendered(s, i)))
    ensures Spelled(s, PositionsTo(s, i + 1), Rendered(s, i + 1), Positions(Rendered(s, i + 1)))
  {
    var before, p, d := Rendered(s, i), PositionsTo(s, i), ToLower(s[i]);
    var hyphen := before != [] && WordBreak(s, i);
    assert hyphen <==> p != [] && StartsWord(s, p[|p| - 1], i) by {
      BothEmpty(s, p, before, Positions(before));
      if p != [] {
        BreakStarts(s, i);
      }
    }
    var all := before + (if hyphen then "-" else "") + [d];
    assert Spelled(s, p + [i], all, Positions(all)) by {
      PositionsAppend(before, hyphen, d);
      SpelledAppend(s, p, before, Positions(before), i, hyphen, d);
    }
    assert Rendered(s, i + 1) == all && PositionsTo(s, i + 1) == p + [i];
  }

  /** The result, freed of its keyword escape, spells the letters and digits of the input in small letters, with hyphens
      between words and nowhere else. */
  lemma HyphensExactly(s: string)
    requires Normalized(s).Some?
    ensures var n := TrimPercent(Normalized(s).value);
            n != [] && Spelled(s, Positions(s), n, Positions(n))
  {
    RenderedSpelled(s, |s|);
    RenderedShape(s, |s|);
    TrimEscaped(Words(s));
  }

  /** An input is accepted exactly when it consists of letters, digits, underscores, hyphens and dots, and the first of
      its letters and digits is a letter. */
  lemma AcceptedExactly(s: string)
    ensures Normalized(s).Some? <==>
              && (forall i :: 0 <= i < |s| ==> LetterOrDigit(s[i]) || s[i] in {'_', '-', '.'})
              && Positions(s) != [] && !Digit(s[Positions(s)[0]])
  {
    assert Supported(s) <==> forall i :: 0 <= i < |s| ==> LetterOrDigit(s[i]) || s[i] in {'_', '-', '.'};
    if Supported(s) {
      RenderedSpelled(s, |s|);
        BothEmpty(s, Positions(s), Words(s), Positions(Words(s)));
      if Positions(s) != [] {
        assert Positions(s)[0] in Positions(s);
        PositionsExactly(s, |s|, Positions(s)[0]);
      }
    }
  }
}
