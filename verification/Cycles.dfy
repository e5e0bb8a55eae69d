/** Walks over child lists: ranks that drop from a node to its children exist exactly where no walk comes back. */
module Cycles {
  import opened Forest

  /** Every child is a node. */
  ghost predicate Inside<T>(kids: map<T, seq<T>>)
  {
    forall k, i :: k in kids && 0 <= i < |kids[k]| ==> kids[k][i] in kids
  }

  ghost predicate Step<T>(kids: map<T, seq<T>>, a: T, b: T)
  {
    a in kids && b in kids[a]
  }

  ghost predicate IsWalk<T>(kids: map<T, seq<T>>, p: seq<T>, a: T, b: T)
  {
    && |p| > 0 && p[0] == a && p[|p| - 1] == b
    && forall i :: 0 <= i < |p| - 1 ==> Step(kids, p[i], p[i + 1])
  }

  ghost predicate Reaches<T(!new)>(kids: map<T, seq<T>>, a: T, b: T)
  {
    exists p :: IsWalk(kids, p, a, b)
  }

  /** A walk of at least one step leads from the node back to it. */
  ghost predicate OnCycle<T(!new)>(kids: map<T, seq<T>>, k: T)
  {
    exists p :: |p| > 1 && IsWalk(kids, p, k, k)
  }

  ghost predicate NoCycleFrom<T(!new)>(kids: map<T, seq<T>>, root: T)
  {
    forall k :: Reaches(kids, root, k) ==> !OnCycle(kids, k)
  }

  /** The shape has the same child lists, for some of the nodes. */
  ghost predicate PartOf<T>(s: Shape<T>, kids: map<T, seq<T>>)
  {
    s.kids.Keys <= kids.Keys && forall k :: k in s.kids ==> s.kids[k] == kids[k]
  }

  lemma {:induction false} WalkPart<T>(kids: map<T, seq<T>>, p: seq<T>, a: T, b: T, m: nat, n: nat)
    requires IsWalk(kids, p, a, b) && m <= n < |p|
    ensures IsWalk(kids, p[m..n + 1], p[m], p[n])
  {
    var q := p[m..n + 1];
    forall i | 0 <= i < |q| - 1 ensures Step(kids, q[i], q[i + 1]) {
      assert Step(kids, p[m + i], p[m + i + 1]);
    }
  }

  lemma {:induction false} WalkOn<T>(kids: map<T, seq<T>>, p: seq<T>, a: T, b: T, c: T)
    requires IsWalk(kids, p, a, b) && Step(kids, b, c)
    ensures IsWalk(kids, p + [c], a, c)
  {
    var q := p + [c];
    forall i | 0 <= i < |q| - 1 ensures Step(kids, q[i], q[i + 1]) {
      if i < |p| - 1 { assert Step(kids, p[i], p[i + 1]); }
    }
  }

  // ----- ranks leave no cycle -----

  /** A walk that starts in a ranked part stays there, and the rank drops with every step. */
  lemma {:induction false} WalkDescends<T>(s: Shape<T>, kids: map<T, seq<T>>, p: seq<T>, a: T, b: T)
    requires Ranked(s) && PartOf(s, kids) && IsWalk(kids, p, a, b) && a in s.kids
    ensures b in s.kids && s.rank[b] + |p| - 1 <= s.rank[a]
    decreases |p|
  {
    if |p| > 1 {
      var n := |p| - 2;
      WalkPart(kids, p, a, b, 0, n);
      WalkDescends(s, kids, p[0..n + 1], a, p[n]);
      assert Step(kids, p[n], p[n + 1]);
      var i :| 0 <= i < |s.kids[p[n]]| && s.kids[p[n]][i] == b;
    }
  }

  lemma {:induction false} RankedHasNoCycle<T(!new)>(s: Shape<T>, kids: map<T, seq<T>>, root: T)
    requires Ranked(s) && PartOf(s, kids) && root in s.kids
    ensures NoCycleFrom(kids, root)
  {
    forall k | Reaches(kids, root, k) ensures !OnCycle(kids, k) {
      var p :| IsWalk(kids, p, root, k);
      WalkDescends(s, kids, p, root, k);
      if OnCycle(kids, k) {
        var q :| |q| > 1 && IsWalk(kids, q, k, k);
        WalkDescends(s, kids, q, k, k);
      }
    }
  }

  // ----- and without a cycle there are ranks -----

  /** Both parts together, the second above the first. */
  ghost function Stacked<T>(s: Shape<T>, t: Shape<T>): (r: Shape<T>)
    requires Ranked(s) && Ranked(t)
  {
    Shape(t.kids + s.kids, map[],
          map k | k in t.kids.Keys + s.kids.Keys :: if k in s.kids then s.rank[k] else s.top + t.rank[k], s.top + t.top)
  }

  lemma {:induction false} StackedRanked<T>(s: Shape<T>, t: Shape<T>, kids: map<T, seq<T>>)
    requires Ranked(s) && Ranked(t) && PartOf(s, kids) && PartOf(t, kids)
    ensures Ranked(Stacked(s, t)) && PartOf(Stacked(s, t), kids)
  {
    var r := Stacked(s, t);
    forall k, i | k in r.kids && 0 <= i < |r.kids[k]|
      ensures r.kids[k][i] in r.kids && r.rank[r.kids[k][i]] < r.rank[k]
    {
      if k in s.kids {
        assert s.kids[k][i] in s.kids;
      } else {
        assert t.kids[k][i] in t.kids;
      }
    }
  }

  /** One more node, above everything so far. */
  lemma {:induction false} OnTop<T>(t: Shape<T>, kids: map<T, seq<T>>, k: T) returns (s: Shape<T>)
    requires Ranked(t) && PartOf(t, kids) && k in kids && forall i :: 0 <= i < |kids[k]| ==> kids[k][i] in t.kids
    ensures Ranked(s) && PartOf(s, kids) && s.kids.Keys == t.kids.Keys + {k}
  {
    s := if k in t.kids then t else Shape(t.kids[k := kids[k]], map[], t.rank[k := t.top], t.top + 1);
  }

  lemma {:induction false} WalkHasNoRepeat<T(!new)>(kids: map<T, seq<T>>, p: seq<T>, root: T, k: T, i: nat, j: nat)
    requires IsWalk(kids, p, root, k) && NoCycleFrom(kids, root) && i < j < |p|
    ensures p[i] != p[j]
  {
    if p[i] == p[j] {
      WalkPart(kids, p, root, k, 0, i);
      assert Reaches(kids, root, p[i]);
      WalkPart(kids, p, root, k, i, j);
      assert false;
    }
  }

  lemma {:induction false} DistinctFits<T>(p: seq<T>, all: set<T>)
    requires forall i :: 0 <= i < |p| ==> p[i] in all
    requires forall i, j :: 0 <= i < j < |p| ==> p[i] != p[j]
    ensures |p| <= |all|
  {
    if p != [] {
      var n := |p| - 1;
      DistinctFits(p[..n], all - {p[n]});
    }
  }

  lemma {:induction false} WalkInside<T>(kids: map<T, seq<T>>, p: seq<T>, root: T, k: T, i: nat)
    requires Inside(kids) && IsWalk(kids, p, root, k) && root in kids && i < |p|
    ensures p[i] in kids
  {
    if i > 0 {
      WalkInside(kids, p, root, k, i - 1);
      assert Step(kids, p[i - 1], p[i - 1 + 1]);
    }
  }

  lemma {:induction false} WalkFits<T(!new)>(kids: map<T, seq<T>>, p: seq<T>, root: T, k: T)
    requires Inside(kids) && IsWalk(kids, p, root, k) && root in kids && NoCycleFrom(kids, root)
    ensures |p| <= |kids.Keys| && k in kids
  {
    forall i | 0 <= i < |p| ensures p[i] in kids.Keys {
      WalkInside(kids, p, root, k, i);
    }
    forall i, j | 0 <= i < j < |p| ensures p[i] != p[j] {
      WalkHasNoRepeat(kids, p, root, k, i, j);
    }
    DistinctFits(p, kids.Keys);
  }

  /** Ranks for everything below the end of a walk. */
  lemma {:induction false} RankBelow<T(!new)>(kids: map<T, seq<T>>, root: T, p: seq<T>, k: T) returns (s: Shape<T>)
    requires Inside(kids) && root in kids && NoCycleFrom(kids, root) && IsWalk(kids, p, root, k)
    ensures Ranked(s) && PartOf(s, kids) && k in s.kids
    decreases |kids.Keys| - |p|, 1, 0
  {
    WalkFits(kids, p, root, k);
    var t := RankChildren(kids, root, p, k, |kids[k]|);
    s := OnTop(t, kids, k);
  }

  lemma {:induction false} RankChildren<T(!new)>(kids: map<T, seq<T>>, root: T, p: seq<T>, k: T, n: nat)
    returns (s: Shape<T>)
    requires Inside(kids) && root in kids && NoCycleFrom(kids, root) && IsWalk(kids, p, root, k) && k in kids
    requires n <= |kids[k]|
    ensures Ranked(s) && PartOf(s, kids) && forall i :: 0 <= i < n ==> kids[k][i] in s.kids
    decreases |kids.Keys| - |p|, 0, n
  {
    if n == 0 {
      s := Shape(map[], map[], map[], 0);
    } else {
      var c := kids[k][n - 1];
      var t := RankChildren(kids, root, p, k, n - 1);
      WalkOn(kids, p, root, k, c);
      WalkFits(kids, p + [c], root, c);
      var u := RankBelow(kids, root, p + [c], c);
      StackedRanked(t, u, kids);
      s := Stacked(t, u);
    }
  }

  /** Ranks for everything that can be reached exist if and only if no cycle can be reached. */
  lemma {:induction false} RankedExactly<T(!new)>(kids: map<T, seq<T>>, root: T)
    requires Inside(kids) && root in kids
    ensures (exists s :: Ranked(s) && PartOf(s, kids) && root in s.kids) <==> NoCycleFrom(kids, root)
  {
    if NoCycleFrom(kids, root) {
      assert IsWalk(kids, [root], root, root);
      var s := RankBelow(kids, root, [root], root);
    }
    if s :| Ranked(s) && PartOf(s, kids) && root in s.kids {
      RankedHasNoCycle(s, kids, root);
    }
  }
}
