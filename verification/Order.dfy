/** Sorting: a stable insertion sort, and why its result depends only on the elements. */
module Order {

  /** Byte-wise lexicographic order of strings. */
  predicate Below(a: string, b: string) {
    a == [] || (b != [] && (a[0] < b[0] || (a[0] == b[0] && Below(a[1..], b[1..]))))
  }

  /** `leq` is a total order on the elements of `s`. */
  ghost predicate Orders<T(!new)>(leq: (T, T) -> bool, s: seq<T>) {
    && (forall x, y :: x in s && y in s ==> leq(x, y) || leq(y, x))
    && (forall x, y :: x in s && y in s && leq(x, y) && leq(y, x) ==> x == y)
    && (forall x, y, z :: x in s && y in s && z in s && leq(x, y) && leq(y, z) ==> leq(x, z))
  }

  ghost predicate SortedBy<T>(s: seq<T>, leq: (T, T) -> bool) {
    forall j, k :: 0 <= j < k < |s| ==> leq(s[j], s[k])
  }

  function Insert<T>(x: T, s: seq<T>, leq: (T, T) -> bool): (r: seq<T>)
    ensures multiset(r) == multiset(s) + multiset{x}
  {
    if s == [] || leq(x, s[0]) then [x] + s
    else
      assert s == [s[0]] + s[1..];
      [s[0]] + Insert(x, s[1..], leq)
  }

  function Sort<T>(s: seq<T>, leq: (T, T) -> bool): (r: seq<T>)
    ensures multiset(r) == multiset(s)
  {
    if s == [] then []
    else
      assert s == [s[0]] + s[1..];
      Insert(s[0], Sort(s[1..], leq), leq)
  }

  lemma SortMembers<T>(s: seq<T>, leq: (T, T) -> bool, x: T)
    ensures x in Sort(s, leq) <==> x in s
  {
    assert x in Sort(s, leq) <==> x in multiset(Sort(s, leq));
  }

  lemma {:induction false} InsertSorted<T(!new)>(x: T, s: seq<T>, leq: (T, T) -> bool)
    requires Orders(leq, [x] + s) && SortedBy(s, leq)
    ensures SortedBy(Insert(x, s, leq), leq)
  {
    var all := [x] + s;
    assert x in all && forall y :: y in s ==> y in all;
    if s != [] && !leq(x, s[0]) {
      var rest := Insert(x, s[1..], leq);
      assert forall y :: y in [x] + s[1..] ==> y in all;
      InsertSorted(x, s[1..], leq);
      forall k | 0 <= k < |rest|
        ensures leq(s[0], rest[k])
      {
        assert rest[k] in multiset(rest);
        assert rest[k] == x || rest[k] in s[1..];
      }
    }
  }

  lemma {:induction false} SortSorted<T(!new)>(s: seq<T>, leq: (T, T) -> bool)
    requires Orders(leq, s)
    ensures SortedBy(Sort(s, leq), leq)
  {
    if s != [] {
      var rest := Sort(s[1..], leq);
      assert forall y :: y in s[1..] ==> y in s;
      SortSorted(s[1..], leq);
      forall y | y in [s[0]] + rest
        ensures y in s
      {
        SortMembers(s[1..], leq, y);
      }
      InsertSorted(s[0], rest, leq);
    }
  }

  lemma SameFirst<T(!new)>(s: seq<T>, t: seq<T>, leq: (T, T) -> bool)
    requires Orders(leq, s) && multiset(s) == multiset(t) && SortedBy(s, leq) && SortedBy(t, leq)
    requires s != [] && t != []
    ensures s[0] == t[0]
  {
    assert s[0] in multiset(t) && t[0] in multiset(s);
    var j :| 0 <= j < |t| && t[j] == s[0];
    var k :| 0 <= k < |s| && s[k] == t[0];
    assert j == 0 || leq(t[0], t[j]);
    assert k == 0 || leq(s[0], s[k]);
  }

  lemma SameLength<T>(s: seq<T>, t: seq<T>)
    requires multiset(s) == multiset(t)
    ensures |s| == |t|
  {
    assert |s| == |multiset(s)| == |multiset(t)| == |t|;
  }

  lemma SameParts<T>(s: seq<T>, t: seq<T>)
    requires s != [] && t != [] && s[0] == t[0] && s[1..] == t[1..]
    ensures s == t
  {
    assert s == [s[0]] + s[1..] && t == [t[0]] + t[1..];
  }

  lemma WithoutFirst<T>(s: seq<T>)
    requires s != []
    ensures multiset(s[1..]) == multiset(s) - multiset{s[0]}
  {
    assert s == [s[0]] + s[1..];
  }

  lemma TailSorted<T(!new)>(s: seq<T>, leq: (T, T) -> bool)
    requires s != [] && SortedBy(s, leq)
    ensures SortedBy(s[1..], leq)
  {
  }

  lemma OrdersTail<T(!new)>(s: seq<T>, leq: (T, T) -> bool)
    requires s != [] && Orders(leq, s)
    ensures Orders(leq, s[1..])
  {
    assert forall y :: y in s[1..] ==> y in s;
  }

  /** Two sorted arrangements of the same elements are equal. */
  lemma {:induction false} SortedUnique<T(!new)>(s: seq<T>, t: seq<T>, leq: (T, T) -> bool)
    requires Orders(leq, s) && multiset(s) == multiset(t) && SortedBy(s, leq) && SortedBy(t, leq)
    ensures s == t
  {
    SameLength(s, t);
    if s != [] {
      SameFirst(s, t, leq);
      assert multiset(s[1..]) == multiset(t[1..]) by {
        WithoutFirst(s);
        WithoutFirst(t);
      }
      TailSorted(s, leq);
      TailSorted(t, leq);
      OrdersTail(s, leq);
      SortedUnique(s[1..], t[1..], leq);
      SameParts(s, t);
    }
  }

  /** A list without repetitions holds each element of its set once. */
  lemma {:induction false} DistinctMultiset<T>(l: seq<T>, s: set<T>)
    requires forall x :: x in l <==> x in s
    requires forall j, k :: 0 <= j < k < |l| ==> l[j] != l[k]
    ensures multiset(l) == multiset(s)
  {
    if l != [] {
      var n := |l| - 1;
      assert l == l[..n] + [l[n]];
      assert l[n] !in l[..n];
      DistinctMultiset(l[..n], s - {l[n]});
      assert s == (s - {l[n]}) + {l[n]};
    }
  }

  /** Sorting forgets the order of its input. */
  lemma SortForgets<T(!new)>(s: seq<T>, t: seq<T>, leq: (T, T) -> bool)
    requires Orders(leq, s) && multiset(s) == multiset(t)
    ensures Sort(s, leq) == Sort(t, leq)
  {
    assert forall x :: x in t ==> x in multiset(t);
    assert forall x :: x in s <==> x in multiset(s);
    assert forall x :: x in t ==> x in s;
    SortSorted(s, leq);
    SortSorted(t, leq);
    assert forall x :: x in Sort(s, leq) ==> x in multiset(Sort(s, leq));
    SortedUnique(Sort(s, leq), Sort(t, leq), leq);
  }

  // ----- strings -----

  lemma {:induction false} BelowTotal(a: string, b: string)
    ensures Below(a, b) || Below(b, a)
    ensures Below(a, b) && Below(b, a) ==> a == b
  {
    if a != [] && b != [] && a[0] == b[0] {
      BelowTotal(a[1..], b[1..]);
      assert a == [a[0]] + a[1..] && b == [b[0]] + b[1..];
    }
  }

  lemma {:induction false} BelowTransitive(a: string, b: string, c: string)
    requires Below(a, b) && Below(b, c)
    ensures Below(a, c)
  {
    if a != [] && a[0] == b[0] == c[0] {
      BelowTransitive(a[1..], b[1..], c[1..]);
    }
  }

  lemma BelowOrders(s: seq<string>)
    ensures Orders(Below, s)
  {
    forall x: string, y: string
      ensures (Below(x, y) || Below(y, x)) && (Below(x, y) && Below(y, x) ==> x == y)
    {
      BelowTotal(x, y);
    }
    forall x: string, y: string, z: string | Below(x, y) && Below(y, z)
      ensures Below(x, z)
    {
      BelowTransitive(x, y, z);
    }
  }

  lemma SortBelow(s: seq<string>)
    ensures SortedBy(Sort(s, Below), Below)
  {
    BelowOrders(s);
    SortSorted(s, Below);
  }
}
