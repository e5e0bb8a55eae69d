/** Sums over the values of a map. */
module Sums {
  import opened Basics

  ghost function Sum<K>(m: map<K, int>): (r: int)
  {
    if m == map[] then 0
    else
      var k :| k in m;
      m[k] + Sum(m - {k})
  }

  /** The sum does not depend on which key is taken out first. */
  lemma {:induction false} SumTake<K>(m: map<K, int>, k: K)
    requires k in m
    ensures Sum(m) == m[k] + Sum(m - {k})
    decreases |m|
  {
    var j :| j in m && Sum(m) == m[j] + Sum(m - {j});
    if j != k {
      SumTake(m - {j}, k);
      SumTake(m - {k}, j);
      assert (m - {j}) - {k} == (m - {k}) - {j};
    }
  }

  lemma {:induction false} SumInsert<K>(m: map<K, int>, k: K, v: int)
    requires k !in m
    ensures Sum(m[k := v]) == Sum(m) + v
  {
    SumTake(m[k := v], k);
    assert m[k := v] - {k} == m;
  }

  lemma {:induction false} SumUpdate<K>(m: map<K, int>, k: K, v: int)
    requires k in m
    ensures Sum(m[k := v]) == Sum(m) - m[k] + v
  {
    SumTake(m, k);
    SumTake(m[k := v], k);
    assert m[k := v] - {k} == m - {k};
  }

  lemma {:induction false} UnionStep<K>(m: map<K, int>, n: map<K, int>, k: K)
    requires m.Keys !! n.Keys && k in n
    ensures m + n == (m + (n - {k}))[k := n[k]] && k !in m + (n - {k})
    ensures |n - {k}| < |n|
  {
    assert (n - {k}).Keys == n.Keys - {k};
  }

  lemma {:induction false} SumUnion<K>(m: map<K, int>, n: map<K, int>)
    requires m.Keys !! n.Keys
    ensures Sum(m + n) == Sum(m) + Sum(n)
    decreases |n|
  {
    if n == map[] {
      assert m + n == m;
    } else {
      var k :| k in n;
      var rest := n - {k};
      UnionStep(m, n, k);
      SumUnion(m, rest);
      SumTake(n, k);
      SumInsert(m + rest, k, n[k]);
    }
  }

  // ----- sums over a list -----

  ghost predicate Weighed<T>(xs: seq<T>, w: map<T, int>)
  {
    forall i :: 0 <= i < |xs| ==> xs[i] in w
  }

  ghost function Total<T>(xs: seq<T>, w: map<T, int>): (r: int)
    requires Weighed(xs, w)
  {
    if xs == [] then 0 else w[xs[0]] + Total(xs[1..], w)
  }

  lemma {:induction false} TotalConcat<T>(xs: seq<T>, ys: seq<T>, w: map<T, int>)
    requires Weighed(xs, w) && Weighed(ys, w)
    ensures Weighed(xs + ys, w) && Total(xs + ys, w) == Total(xs, w) + Total(ys, w)
  {
    if xs == [] {
      assert xs + ys == ys;
    } else {
      assert (xs + ys)[1..] == xs[1..] + ys;
      TotalConcat(xs[1..], ys, w);
    }
  }

  lemma {:induction false} TotalWithout<T>(xs: seq<T>, j: nat, w: map<T, int>)
    requires Weighed(xs, w) && j < |xs|
    ensures Weighed(xs[..j] + xs[j + 1..], w) && Total(xs, w) == w[xs[j]] + Total(xs[..j] + xs[j + 1..], w)
  {
    var rest := xs[j..];
    assert xs == xs[..j] + rest && rest[1..] == xs[j + 1..];
    TotalConcat(xs[..j], rest, w);
    TotalConcat(xs[..j], xs[j + 1..], w);
  }

  lemma {:induction false} TotalPermuted<T>(xs: seq<T>, ys: seq<T>, w: map<T, int>)
    requires multiset(xs) == multiset(ys) && Weighed(xs, w) && Weighed(ys, w)
    ensures Total(xs, w) == Total(ys, w)
    decreases |xs|
  {
    if xs == [] {
      assert |multiset(ys)| == 0;
    } else {
      var j := TakeOut(xs, ys);
      TotalWithout(ys, j, w);
      TotalPermuted(xs[1..], ys[..j] + ys[j + 1..], w);
    }
  }

  lemma {:induction false} TotalSplits<T>(xs: seq<T>, u: map<T, int>, v: map<T, int>, w: map<T, int>)
    requires Weighed(xs, u) && Weighed(xs, v) && Weighed(xs, w)
    requires forall i :: 0 <= i < |xs| ==> w[xs[i]] == u[xs[i]] + v[xs[i]]
    ensures Total(xs, w) == Total(xs, u) + Total(xs, v)
  {
    if xs != [] { TotalSplits(xs[1..], u, v, w); }
  }

  ghost predicate Distinct<T>(xs: seq<T>)
  {
    forall i, j :: 0 <= i < j < |xs| ==> xs[i] != xs[j]
  }

  lemma {:induction false} TotalNothing<T>(xs: seq<T>, w: map<T, int>)
    requires Weighed(xs, w) && forall i :: 0 <= i < |xs| ==> w[xs[i]] == 0
    ensures Total(xs, w) == 0
  {
    if xs != [] { TotalNothing(xs[1..], w); }
  }

  /** Entries that weigh nothing do not matter. */
  lemma {:induction false} TotalOnly<T>(xs: seq<T>, ys: seq<T>, w: map<T, int>)
    requires Distinct(xs) && Distinct(ys) && Weighed(xs, w) && Weighed(ys, w)
    requires (forall y :: y in ys ==> y in xs) && (forall x :: x in xs && x !in ys ==> w[x] == 0)
    ensures Total(xs, w) == Total(ys, w)
    decreases |ys|
  {
    if ys == [] {
      TotalNothing(xs, w);
    } else {
      assert ys[0] in xs;
      var j :| 0 <= j < |xs| && xs[j] == ys[0];
      TotalWithout(xs, j, w);
      OneTaken(xs, ys, j);
      TotalOnly(xs[..j] + xs[j + 1..], ys[1..], w);
    }
  }

  lemma {:induction false} OneTaken<T>(xs: seq<T>, ys: seq<T>, j: nat)
    requires Distinct(xs) && Distinct(ys) && j < |xs| && ys != [] && xs[j] == ys[0] && forall y :: y in ys ==> y in xs
    ensures var rest := xs[..j] + xs[j + 1..];
      && Distinct(rest) && (forall y :: y in ys[1..] ==> y in rest)
      && (forall x :: x in rest && x !in ys[1..] ==> x in xs && x !in ys)
  {
    var rest := xs[..j] + xs[j + 1..];
    assert xs == xs[..j] + [xs[j]] + xs[j + 1..];
    assert ys == [ys[0]] + ys[1..];
    forall k | 0 <= k < |rest| ensures rest[k] in xs && rest[k] != ys[0] {
      var i := if k < j then k else k + 1;
      assert rest[k] == xs[i] && xs[i] != xs[j];
    }
    forall k | 0 <= k < |ys[1..]| ensures ys[1..][k] in rest {
      assert ys[1..][k] == ys[k + 1] && ys[k + 1] in xs && ys[k + 1] != ys[0];
    }
  }
}
