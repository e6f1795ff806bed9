/** Datatypes and finite-map sums shared by the other modules. */
module Prelude {

  datatype Option<+T> = None | Some(value: T) {
    /** The Python idiom `d.get(key, fallback)`. */
    function GetOr(fallback: T): T {
      if Some? then value else fallback
    }
  }

  datatype Result<+T, +E> = Ok(value: T) | Err(error: E)

  /** Some fixed key of a non-empty map. */
  ghost function Pick<K, V>(m: map<K, V>): (k: K)
    requires |m| != 0
    ensures k in m
  {
    var k :| k in m.Keys;
    k
  }

  /** Sum of `f` over the values of a finite map. */
  ghost function Tally<K, V>(m: map<K, V>, f: V -> int): int {
    if |m| == 0 then 0
    else f(m[Pick(m)]) + Tally(m - {Pick(m)}, f)
  }

  lemma {:induction false} TallyRemove<K, V>(m: map<K, V>, f: V -> int, k: K)
    requires k in m
    ensures Tally(m, f) == f(m[k]) + Tally(m - {k}, f)
    decreases |m|
  {
    var c := Pick(m);
    if c != k {
      TallyRemove(m - {c}, f, k);
      TallyRemove(m - {k}, f, c);
      assert m - {c} - {k} == m - {k} - {c};
    }
  }

  lemma OthersKept<K, V>(m: map<K, V>, k: K, v: V)
    ensures m[k := v] - {k} == m - {k}
    ensures k !in m ==> m - {k} == m
  {
    assert (m[k := v] - {k}).Keys == (m - {k}).Keys;
    if k !in m {
      assert m.Keys == (m - {k}).Keys;
    }
  }

  lemma TallySet<K, V>(m: map<K, V>, f: V -> int, k: K, v: V)
    ensures Tally(m[k := v], f) == Tally(m, f) + f(v) - (if k in m then f(m[k]) else 0)
  {
    OthersKept(m, k, v);
    TallyRemove(m[k := v], f, k);
    if k in m {
      TallyRemove(m, f, k);
    }
  }

  lemma {:induction false} TallySame<K, V>(m: map<K, V>, n: map<K, V>, f: V -> int)
    requires m.Keys == n.Keys
    requires forall k :: k in m ==> f(m[k]) == f(n[k])
    ensures Tally(m, f) == Tally(n, f)
    decreases |m|
  {
    if |m| == 0 {
      assert n == map[];
    } else {
      var k :| k in m;
      TallyRemove(m, f, k);
      TallyRemove(n, f, k);
      TallySame(m - {k}, n - {k}, f);
    }
  }

  lemma {:induction false} TallyZero<K, V>(m: map<K, V>, f: V -> int)
    requires forall k :: k in m ==> f(m[k]) == 0
    ensures Tally(m, f) == 0
    decreases |m|
  {
    if |m| != 0 {
      var k :| k in m;
      TallyRemove(m, f, k);
      TallyZero(m - {k}, f);
    }
  }

  lemma {:induction false} TallyNonNegative<K, V>(m: map<K, V>, f: V -> int)
    requires forall k :: k in m ==> f(m[k]) >= 0
    ensures Tally(m, f) >= 0
    decreases |m|
  {
    if |m| != 0 {
      var k :| k in m;
      TallyRemove(m, f, k);
      TallyNonNegative(m - {k}, f);
    }
  }
}
