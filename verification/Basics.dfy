/** Small shared definitions. */
module Basics {

  /** Hashes are opaque values with equality, numbered here; `NO_HASH` is the zero value of the source's type. */
  type Hash = nat

  const NO_HASH: Hash := 0

  datatype Option<+T> = None | Some(value: T)

  /** The positions of a list of length `n`. */
  ghost function Positions(n: nat): (r: set<nat>)
    ensures forall i: nat :: i in r <==> i < n
    ensures |r| == n
  {
    if n == 0 then {} else Positions(n - 1) + {n - 1}
  }

  /** The first entry of `u` taken out of a permutation of `u`. */
  lemma {:induction false} TakeOut<T>(u: seq<T>, v: seq<T>) returns (j: nat)
    requires u != [] && multiset(u) == multiset(v)
    ensures j < |v| && v[j] == u[0]
    ensures multiset(u[1..]) == multiset(v[..j] + v[j + 1..])
  {
    assert u == [u[0]] + u[1..];
    assert u[0] in multiset(v);
    j :| 0 <= j < |v| && v[j] == u[0];
    assert v == v[..j] + [v[j]] + v[j + 1..];
    assert multiset(v) == multiset(v[..j] + v[j + 1..]) + multiset{u[0]};
    assert multiset(u[1..]) == multiset(u) - multiset{u[0]};
  }
}
