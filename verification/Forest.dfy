/** Rooted, ordered forests, and how often traversals without a visited set list each node. */
module Forest {
  import opened Basics

  /** `kids` gives the ordered children of every node, `par` the parent of every
      node that has one. `rank` drops from a node to its children and stays below `top`. */
  datatype Shape<T> = Shape(kids: map<T, seq<T>>, par: map<T, T>, rank: map<T, nat>, top: nat)

  /** The child relation stays inside the node set and has no cycle. */
  ghost predicate Ranked<T>(s: Shape<T>)
  {
    && s.rank.Keys == s.kids.Keys
    && (forall k :: k in s.kids ==> s.rank[k] < s.top)
    && (forall k, i :: k in s.kids && 0 <= i < |s.kids[k]| ==>
          s.kids[k][i] in s.kids && s.rank[s.kids[k][i]] < s.rank[k])
  }

  /** `c` is once in the child list of `p` if that is its parent, and not at all otherwise. */
  ghost predicate SitsRight<T>(s: Shape<T>, p: T, c: T)
    requires p in s.kids
  {
    multiset(s.kids[p])[c] == if c in s.par && s.par[c] == p then 1 else 0
  }

  /** Every node has at most one parent, and sits exactly once in its parent's child list. */
  ghost predicate IsForest<T(!new)>(s: Shape<T>)
  {
    && Ranked(s)
    && (forall c :: c in s.par ==> c in s.kids && s.par[c] in s.kids)
    && (forall p, c :: p in s.kids ==> SitsRight(s, p, c))
  }

  /** A forest in which `root` is the only node without a parent. */
  ghost predicate IsTree<T(!new)>(s: Shape<T>, root: T)
  {
    && IsForest(s)
    && root in s.kids
    && s.par.Keys == s.kids.Keys - {root}
  }

  ghost predicate Below<T>(s: Shape<T>, bound: nat, work: seq<T>)
  {
    forall i :: 0 <= i < |work| ==> work[i] in s.kids && work[i] in s.rank && s.rank[work[i]] < bound
  }

  /** All nodes listed depth first from the entries of `work`, once for every path. */
  ghost function Unfold<T>(s: Shape<T>, bound: nat, work: seq<T>): (r: seq<T>)
    requires Ranked(s) && Below(s, bound, work)
    decreases bound, |work|
  {
    if work == [] then []
    else [work[0]] + Unfold(s, s.rank[work[0]], s.kids[work[0]]) + Unfold(s, bound, work[1..])
  }

  lemma {:induction false} UnfoldBound<T>(s: Shape<T>, b1: nat, b2: nat, work: seq<T>)
    requires Ranked(s) && Below(s, b1, work) && Below(s, b2, work)
    ensures Unfold(s, b1, work) == Unfold(s, b2, work)
    decreases |work|
  {
    if work != [] {
      UnfoldBound(s, b1, b2, work[1..]);
    }
  }

  lemma {:induction false} UnfoldConcat<T>(s: Shape<T>, b: nat, u: seq<T>, v: seq<T>)
    requires Ranked(s) && Below(s, b, u) && Below(s, b, v)
    ensures Below(s, b, u + v)
    ensures Unfold(s, b, u + v) == Unfold(s, b, u) + Unfold(s, b, v)
    decreases |u|
  {
    if u == [] {
      assert u + v == v;
    } else {
      assert (u + v)[1..] == u[1..] + v;
      UnfoldConcat(s, b, u[1..], v);
    }
  }

  /** One turn of the queue takes the first entry off the listing and keeps the rest. */
  lemma {:induction false} UnfoldStep<T>(s: Shape<T>, queue: seq<T>)
    requires Ranked(s) && Below(s, s.top, queue) && queue != []
    ensures Below(s, s.top, queue[1..] + s.kids[queue[0]])
    ensures |Unfold(s, s.top, queue)| == 1 + |Unfold(s, s.top, queue[1..] + s.kids[queue[0]])|
    ensures multiset(Unfold(s, s.top, queue))
         == multiset{queue[0]} + multiset(Unfold(s, s.top, queue[1..] + s.kids[queue[0]]))
  {
    var k := s.kids[queue[0]];
    UnfoldBound(s, s.top, s.rank[queue[0]], k);
    UnfoldConcat(s, s.top, queue[1..], k);
  }

  // ----- the queue traversal -----

  /** The order in which a first-in first-out queue without a visited set lists nodes. */
  ghost function QueueOrder<T>(s: Shape<T>, queue: seq<T>): (r: seq<T>)
    requires Ranked(s) && Below(s, s.top, queue)
    decreases |Unfold(s, s.top, queue)|
  {
    if queue == [] then []
    else
      UnfoldStep(s, queue);
      [queue[0]] + QueueOrder(s, queue[1..] + s.kids[queue[0]])
  }

  /** One turn of the queue. */
  lemma {:induction false} QueueTurn<T>(s: Shape<T>, queue: seq<T>)
    requires Ranked(s) && Below(s, s.top, queue) && queue != []
    ensures var next := queue[1..] + s.kids[queue[0]];
      && Below(s, s.top, next)
      && QueueOrder(s, queue)[0] == queue[0] && QueueOrder(s, queue)[1..] == QueueOrder(s, next)
      && |Unfold(s, s.top, next)| < |Unfold(s, s.top, queue)|
  {
    UnfoldStep(s, queue);
  }

  lemma {:induction false} QueueListsUnfolding<T>(s: Shape<T>, queue: seq<T>)
    requires Ranked(s) && Below(s, s.top, queue)
    ensures multiset(QueueOrder(s, queue)) == multiset(Unfold(s, s.top, queue))
    decreases |Unfold(s, s.top, queue)|
  {
    if queue != [] {
      UnfoldStep(s, queue);
      QueueListsUnfolding(s, queue[1..] + s.kids[queue[0]]);
    }
  }

  /** The children of all entries of a level, side by side. */
  ghost function NextLevel<T>(s: Shape<T>, level: seq<T>): (r: seq<T>)
    requires forall i :: 0 <= i < |level| ==> level[i] in s.kids
  {
    if level == [] then [] else s.kids[level[0]] + NextLevel(s, level[1..])
  }

  /** One round of a level-by-level descent takes the whole level off the listing. */
  lemma {:induction false} LevelStep<T>(s: Shape<T>, level: seq<T>)
    requires Ranked(s) && Below(s, s.top, level)
    ensures Below(s, s.top, NextLevel(s, level))
    ensures multiset(Unfold(s, s.top, level)) == multiset(level) + multiset(Unfold(s, s.top, NextLevel(s, level)))
    ensures |Unfold(s, s.top, level)| == |level| + |Unfold(s, s.top, NextLevel(s, level))|
    decreases |level|
  {
    if level != [] {
      var k := s.kids[level[0]];
      var rest := NextLevel(s, level[1..]);
      LevelStep(s, level[1..]);
      UnfoldBound(s, s.top, s.rank[level[0]], k);
      UnfoldConcat(s, s.top, k, rest);
      LevelParts(level, Unfold(s, s.top, k), Unfold(s, s.top, level[1..]), Unfold(s, s.top, rest));
    }
  }

  lemma {:induction false} LevelParts<T>(level: seq<T>, below: seq<T>, later: seq<T>, rest: seq<T>)
    requires level != [] && multiset(later) == multiset(level[1..]) + multiset(rest)
    ensures multiset([level[0]] + below + later) == multiset(level) + multiset(below + rest)
    ensures |later| == |level| - 1 + |rest|
  {
    assert level == [level[0]] + level[1..];
    assert |multiset(later)| == |later| && |multiset(level[1..])| == |level[1..]| && |multiset(rest)| == |rest|;
  }

  // ----- ancestors -----

  ghost predicate Ancestor<T(!new)>(s: Shape<T>, a: T, k: T)
    requires IsForest(s) && k in s.kids
    decreases s.top - s.rank[k]
  {
    a == k || (k in s.par && (ParentRank(s, k); Ancestor(s, a, s.par[k])))
  }

  lemma {:induction false} ParentRank<T(!new)>(s: Shape<T>, k: T)
    requires IsForest(s) && k in s.par
    ensures k in s.kids && s.par[k] in s.kids && k in s.kids[s.par[k]]
    ensures s.rank[k] < s.rank[s.par[k]] < s.top
  {
    assert SitsRight(s, s.par[k], k);
    assert k in multiset(s.kids[s.par[k]]);
  }

  /** How many entries of `work` are ancestors of `k` (or `k` itself). */
  ghost function AncestorsIn<T(!new)>(s: Shape<T>, work: seq<T>, k: T): nat
    requires IsForest(s) && k in s.kids
  {
    if work == [] then 0
    else (if Ancestor(s, work[0], k) then 1 else 0) + AncestorsIn(s, work[1..], k)
  }

  lemma {:induction false} AncestorIsUp<T(!new)>(s: Shape<T>, a: T, k: T)
    requires IsForest(s) && k in s.kids && Ancestor(s, a, k)
    ensures a in s.kids && s.rank[k] <= s.rank[a] && (a != k ==> s.rank[k] < s.rank[a])
    decreases s.top - s.rank[k]
  {
    if a != k {
      ParentRank(s, k);
      AncestorIsUp(s, a, s.par[k]);
    }
  }

  /** The node just below `a` on the way down to `k`. */
  lemma {:induction false} StepDown<T(!new)>(s: Shape<T>, a: T, k: T) returns (c: T)
    requires IsForest(s) && k in s.kids && Ancestor(s, a, k) && a != k
    ensures c in s.par && s.par[c] == a && Ancestor(s, c, k)
    ensures forall d :: d in s.par && s.par[d] == a && Ancestor(s, d, k) ==> d == c
    decreases s.top - s.rank[k]
  {
    ParentRank(s, k);
    if s.par[k] == a {
      c := k;
      forall d | d in s.par && s.par[d] == a && Ancestor(s, d, k) ensures d == c {
        if d != k {
          AncestorIsUp(s, d, a);
          ParentRank(s, d);
        }
      }
    } else {
      c := StepDown(s, a, s.par[k]);
    }
  }

  /** `k` is counted through the entries of `work` that equal `c`, the only one able to reach it. */
  lemma {:induction false} AncestorsOnlyVia<T(!new)>(s: Shape<T>, work: seq<T>, k: T, c: T)
    requires IsForest(s) && k in s.kids && Ancestor(s, c, k)
    requires forall i :: 0 <= i < |work| && Ancestor(s, work[i], k) ==> work[i] == c
    ensures AncestorsIn(s, work, k) == multiset(work)[c]
  {
    if work != [] {
      assert work == [work[0]] + work[1..];
      AncestorsOnlyVia(s, work[1..], k, c);
    }
  }

  lemma {:induction false} NoAncestors<T(!new)>(s: Shape<T>, work: seq<T>, k: T)
    requires IsForest(s) && k in s.kids
    requires forall i :: 0 <= i < |work| ==> !Ancestor(s, work[i], k)
    ensures AncestorsIn(s, work, k) == 0
  {
    if work != [] {
      NoAncestors(s, work[1..], k);
    }
  }

  lemma {:induction false} AncestorsAmongKids<T(!new)>(s: Shape<T>, p: T, k: T)
    requires IsForest(s) && k in s.kids && p in s.kids
    ensures AncestorsIn(s, s.kids[p], k) == if Ancestor(s, p, k) && p != k then 1 else 0
  {
    KidsOfNode(s, p);
    if Ancestor(s, p, k) && p != k {
      var c := StepDown(s, p, k);
      AncestorsOnlyVia(s, s.kids[p], k, c);
      assert SitsRight(s, p, c);
    } else {
      forall i | 0 <= i < |s.kids[p]| ensures !Ancestor(s, s.kids[p][i], k) {
        if Ancestor(s, s.kids[p][i], k) {
          AncestorThroughKid(s, s.kids[p][i], k);
        }
      }
      NoAncestors(s, s.kids[p], k);
    }
  }

  lemma {:induction false} AncestorThroughKid<T(!new)>(s: Shape<T>, c: T, k: T)
    requires IsForest(s) && k in s.kids && c in s.par && Ancestor(s, c, k)
    ensures Ancestor(s, s.par[c], k) && s.par[c] != k
    decreases s.top - s.rank[k]
  {
    ParentRank(s, c);
    AncestorIsUp(s, c, k);
    if c != k {
      ParentRank(s, k);
      AncestorThroughKid(s, c, s.par[k]);
    }
  }

  // ----- exactly once -----

  /** The unfolding lists a node once for every entry of `work` it hangs under. */
  lemma {:induction false} UnfoldCounts<T(!new)>(s: Shape<T>, bound: nat, work: seq<T>, k: T)
    requires IsForest(s) && Below(s, bound, work) && k in s.kids
    ensures multiset(Unfold(s, bound, work))[k] == AncestorsIn(s, work, k)
    decreases bound, |work|
  {
    if work != [] {
      UnfoldCounts(s, s.rank[work[0]], s.kids[work[0]], k);
      UnfoldCounts(s, bound, work[1..], k);
      AncestorsAmongKids(s, work[0], k);
    }
  }

  lemma {:induction false} UnfoldInside<T>(s: Shape<T>, bound: nat, work: seq<T>, k: T)
    requires Ranked(s) && Below(s, bound, work) && k in Unfold(s, bound, work)
    ensures k in s.kids
    decreases bound, |work|
  {
    if k != work[0] {
      if k in Unfold(s, s.rank[work[0]], s.kids[work[0]]) {
        UnfoldInside(s, s.rank[work[0]], s.kids[work[0]], k);
      } else {
        UnfoldInside(s, bound, work[1..], k);
      }
    }
  }

  lemma {:induction false} RootIsAncestor<T(!new)>(s: Shape<T>, root: T, k: T)
    requires IsTree(s, root) && k in s.kids
    ensures Ancestor(s, root, k)
    decreases s.top - s.rank[k]
  {
    if k != root {
      ParentRank(s, k);
      RootIsAncestor(s, root, s.par[k]);
    }
  }

  /** In a tree, the depth-first listing from the root has every node exactly once. */
  lemma {:induction false} TreeUnfoldsOnce<T(!new)>(s: Shape<T>, root: T)
    requires IsTree(s, root)
    ensures multiset(Unfold(s, s.top, [root])) == multiset(s.kids.Keys)
  {
    var listing := Unfold(s, s.top, [root]);
    forall k ensures multiset(listing)[k] == multiset(s.kids.Keys)[k] {
      if k in s.kids {
        UnfoldCounts(s, s.top, [root], k);
        RootIsAncestor(s, root, k);
        assert AncestorsIn(s, [root], k) == 1 + AncestorsIn(s, [], k);
      } else if k in listing {
        UnfoldInside(s, s.top, [root], k);
      }
    }
  }

  /** In a tree, the queue lists every node exactly once although it remembers none. */
  lemma {:induction false} QueueVisitsOnce<T(!new)>(s: Shape<T>, root: T)
    requires IsTree(s, root)
    ensures multiset(QueueOrder(s, [root])) == multiset(s.kids.Keys)
  {
    QueueListsUnfolding(s, [root]);
    TreeUnfoldsOnce(s, root);
  }

  lemma {:induction false} AncestorsConcat<T(!new)>(s: Shape<T>, u: seq<T>, v: seq<T>, k: T)
    requires IsForest(s) && k in s.kids
    ensures AncestorsIn(s, u + v, k) == AncestorsIn(s, u, k) + AncestorsIn(s, v, k)
  {
    if u == [] {
      assert u + v == v;
    } else {
      assert (u + v)[1..] == u[1..] + v;
      AncestorsConcat(s, u[1..], v, k);
    }
  }

  lemma {:induction false} AncestorsUnordered<T(!new)>(s: Shape<T>, u: seq<T>, v: seq<T>, k: T)
    requires IsForest(s) && k in s.kids && multiset(u) == multiset(v)
    ensures AncestorsIn(s, u, k) == AncestorsIn(s, v, k)
    decreases |u|
  {
    if u == [] {
      assert |multiset(v)| == 0;
    } else {
      var j := TakeOut(u, v);
      AncestorsUnordered(s, u[1..], v[..j] + v[j + 1..], k);
      AncestorsWithout(s, v, j, k);
    }
  }

  lemma {:induction false} AncestorsWithout<T(!new)>(s: Shape<T>, v: seq<T>, j: nat, k: T)
    requires IsForest(s) && k in s.kids && j < |v|
    ensures AncestorsIn(s, v, k) == AncestorsIn(s, v[..j] + v[j + 1..], k) + if Ancestor(s, v[j], k) then 1 else 0
  {
    var rest := v[j..];
    assert v == v[..j] + rest && rest[1..] == v[j + 1..];
    AncestorsConcat(s, v[..j], rest, k);
    AncestorsConcat(s, v[..j], v[j + 1..], k);
  }

  /** What is listed depends on which entries the level has, not on their order. */
  lemma {:induction false} UnfoldUnordered<T(!new)>(s: Shape<T>, u: seq<T>, v: seq<T>)
    requires IsForest(s) && Below(s, s.top, u) && Below(s, s.top, v) && multiset(u) == multiset(v)
    ensures multiset(Unfold(s, s.top, u)) == multiset(Unfold(s, s.top, v))
  {
    forall k ensures multiset(Unfold(s, s.top, u))[k] == multiset(Unfold(s, s.top, v))[k] {
      if k in s.kids {
        UnfoldCounts(s, s.top, u, k);
        UnfoldCounts(s, s.top, v, k);
        AncestorsUnordered(s, u, v, k);
      } else {
        if k in Unfold(s, s.top, u) { UnfoldInside(s, s.top, u, k); }
        if k in Unfold(s, s.top, v) { UnfoldInside(s, s.top, v, k); }
      }
    }
  }

  // ----- order -----

  /** The entries of `xs` whose parent is `p`, in order. */
  ghost function KidsIn<T(!new)>(s: Shape<T>, p: T, xs: seq<T>): (r: seq<T>)
  {
    if xs == [] then []
    else (if xs[0] in s.par && s.par[xs[0]] == p then [xs[0]] else []) + KidsIn(s, p, xs[1..])
  }

  ghost function Repeat<T>(xs: seq<T>, n: nat): (r: seq<T>)
  {
    if n == 0 then [] else xs + Repeat(xs, n - 1)
  }

  lemma {:induction false} KidsInConcat<T(!new)>(s: Shape<T>, p: T, u: seq<T>, v: seq<T>)
    ensures KidsIn(s, p, u + v) == KidsIn(s, p, u) + KidsIn(s, p, v)
  {
    if u == [] {
      assert u + v == v;
    } else {
      assert (u + v)[1..] == u[1..] + v;
      KidsInConcat(s, p, u[1..], v);
    }
  }

  lemma {:induction false} KidsInAll<T(!new)>(s: Shape<T>, p: T, xs: seq<T>)
    requires forall i :: 0 <= i < |xs| ==> xs[i] in s.par
    requires (forall i :: 0 <= i < |xs| ==> s.par[xs[i]] == p) || (forall i :: 0 <= i < |xs| ==> s.par[xs[i]] != p)
    ensures KidsIn(s, p, xs) == if xs != [] && s.par[xs[0]] == p then xs else []
  {
    if xs != [] {
      KidsInAll(s, p, xs[1..]);
    }
  }

  lemma {:induction false} KidsOfNode<T(!new)>(s: Shape<T>, q: T)
    requires IsForest(s) && q in s.kids
    ensures forall i :: 0 <= i < |s.kids[q]| ==> s.kids[q][i] in s.par && s.par[s.kids[q][i]] == q
  {
    forall i | 0 <= i < |s.kids[q]| ensures s.kids[q][i] in s.par && s.par[s.kids[q][i]] == q {
      assert s.kids[q][i] in multiset(s.kids[q]);
      assert SitsRight(s, q, s.kids[q][i]);
    }
  }

  lemma {:induction false} KidsInNext<T(!new)>(s: Shape<T>, queue: seq<T>, p: T)
    requires IsForest(s) && queue != [] && queue[0] in s.kids && p in s.kids
    ensures KidsIn(s, p, queue[1..] + s.kids[queue[0]])
         == KidsIn(s, p, queue[1..]) + if queue[0] == p then s.kids[p] else []
  {
    KidsInConcat(s, p, queue[1..], s.kids[queue[0]]);
    KidsOfNode(s, queue[0]);
    KidsInAll(s, p, s.kids[queue[0]]);
  }

  /** The queue lists the children of a node one after the other in their own order. */
  lemma {:induction false} QueueKeepsSiblings<T(!new)>(s: Shape<T>, queue: seq<T>, p: T)
    requires IsForest(s) && Below(s, s.top, queue) && p in s.kids
    ensures KidsIn(s, p, QueueOrder(s, queue))
         == KidsIn(s, p, queue) + Repeat(s.kids[p], multiset(QueueOrder(s, queue))[p])
    decreases |Unfold(s, s.top, queue)|
  {
    if queue != [] {
      UnfoldStep(s, queue);
      var next := queue[1..] + s.kids[queue[0]];
      QueueKeepsSiblings(s, next, p);
      KidsInNext(s, queue, p);
      SiblingsCombine(s, p, queue, QueueOrder(s, next), s.kids[p]);
    }
  }

  lemma {:induction false} SiblingsCombine<T(!new)>(s: Shape<T>, p: T, queue: seq<T>, rest: seq<T>, k: seq<T>)
    requires queue != []
    requires KidsIn(s, p, rest)
          == KidsIn(s, p, queue[1..]) + (if queue[0] == p then k else []) + Repeat(k, multiset(rest)[p])
    ensures KidsIn(s, p, [queue[0]] + rest) == KidsIn(s, p, queue) + Repeat(k, multiset([queue[0]] + rest)[p])
  {
    var q, n := queue[0], multiset(rest)[p];
    KidsInFirst(s, p, q, rest);
    SiblingStep(if q in s.par && s.par[q] == p then [q] else [], KidsIn(s, p, queue[1..]), k, n, q == p);
  }

  lemma {:induction false} KidsInFirst<T(!new)>(s: Shape<T>, p: T, q: T, rest: seq<T>)
    ensures KidsIn(s, p, [q] + rest) == (if q in s.par && s.par[q] == p then [q] else []) + KidsIn(s, p, rest)
    ensures multiset([q] + rest)[p] == multiset(rest)[p] + if q == p then 1 else 0
  {
    assert ([q] + rest)[1..] == rest;
  }

  lemma {:induction false} SiblingStep<T>(h: seq<T>, a: seq<T>, k: seq<T>, n: nat, again: bool)
    ensures h + (a + (if again then k else []) + Repeat(k, n)) == (h + a) + Repeat(k, n + if again then 1 else 0)
  {
  }

  /** A node is listed after its parent, unless it was in the queue to begin with. */
  lemma {:induction false} QueueParentsFirst<T(!new)>(s: Shape<T>, queue: seq<T>, i: nat)
    requires IsForest(s) && Below(s, s.top, queue) && i < |QueueOrder(s, queue)|
    ensures var order := QueueOrder(s, queue);
      order[i] in queue || (order[i] in s.par && exists j :: 0 <= j < i && order[j] == s.par[order[i]])
    decreases |Unfold(s, s.top, queue)|
  {
    if i > 0 {
      QueueTurn(s, queue);
      var q := queue[0];
      var next := queue[1..] + s.kids[q];
      QueueParentsFirst(s, next, i - 1);
      ParentBefore(s, queue, q, QueueOrder(s, next), i);
      assert QueueOrder(s, queue) == [q] + QueueOrder(s, next);
    }
  }

  lemma {:induction false} ParentBefore<T(!new)>(s: Shape<T>, queue: seq<T>, q: T, rest: seq<T>, i: nat)
    requires IsForest(s) && queue != [] && queue[0] == q && q in s.kids && 0 < i <= |rest|
    requires var c := rest[i - 1];
      c in queue[1..] + s.kids[q] || (c in s.par && exists j :: 0 <= j < i - 1 && rest[j] == s.par[c])
    ensures var order, c := [q] + rest, rest[i - 1];
      c in queue || (c in s.par && exists j :: 0 <= j < i && order[j] == s.par[c])
  {
    var order, c := [q] + rest, rest[i - 1];
    KidsOfNode(s, q);
    if c in s.kids[q] {
      assert order[0] == s.par[c];
    } else if c !in queue {
      var j :| 0 <= j < i - 1 && rest[j] == s.par[c];
      assert order[j + 1] == s.par[c];
    }
  }

  /** No entry twice, and no node before its parent. */
  ghost predicate ParentsFirst<T(!new)>(s: Shape<T>, keys: seq<T>)
  {
    && (forall i, j :: 0 <= i < j < |keys| ==> keys[i] != keys[j])
    && (forall i, j :: 0 <= i < |keys| && 0 <= j < |keys| && keys[i] in s.par && s.par[keys[i]] == keys[j] ==> j < i)
  }

  lemma {:induction false} CountedOnceIsDistinct<T>(xs: seq<T>, i: nat, j: nat)
    requires i < j < |xs| && multiset(xs)[xs[i]] <= 1
    ensures xs[i] != xs[j]
  {
    assert xs == xs[..j] + [xs[j]] + xs[j + 1..];
    assert xs[i] in xs[..j];
  }

  /** In a tree, the queue order is a parents-first listing of all nodes that keeps every child list. */
  lemma {:induction false} QueueOrderOfTree<T(!new)>(s: Shape<T>, root: T)
    requires IsTree(s, root)
    ensures ParentsFirst(s, QueueOrder(s, [root]))
    ensures multiset(QueueOrder(s, [root])) == multiset(s.kids.Keys)
    ensures forall p :: p in s.kids ==> KidsIn(s, p, QueueOrder(s, [root])) == s.kids[p]
  {
    var order := QueueOrder(s, [root]);
    QueueVisitsOnce(s, root);
    forall i, j | 0 <= i < j < |order| ensures order[i] != order[j] {
      CountedOnceIsDistinct(order, i, j);
    }
    forall i, j | 0 <= i < |order| && 0 <= j < |order| && order[i] in s.par && s.par[order[i]] == order[j]
      ensures j < i
    {
      QueueParentsFirst(s, [root], i);
    }
    forall p | p in s.kids ensures KidsIn(s, p, order) == s.kids[p] {
      QueueKeepsSiblings(s, [root], p);
      assert KidsIn(s, p, [root]) == KidsIn(s, p, []);
      assert multiset(order)[p] == 1;
      assert Repeat(s.kids[p], 1) == s.kids[p] + Repeat(s.kids[p], 0);
    }
  }

  // ----- forests given by a list of parents -----

  ghost function ChildrenIn(pars: seq<Option<nat>>, p: nat): (r: seq<nat>)
  {
    if pars == [] then []
    else
      var n := |pars| - 1;
      ChildrenIn(pars[..n], p) + if pars[n] == Some(p) then [n] else []
  }

  ghost function FirstRoot(pars: seq<Option<nat>>): (r: Option<nat>)
  {
    if pars == [] then None
    else
      var n := |pars| - 1;
      var before := FirstRoot(pars[..n]);
      if before.None? && pars[n].None? then Some(n) else before
  }

  ghost function ParentMap(pars: seq<Option<nat>>): (r: map<nat, nat>)
  {
    map i | i in Positions(|pars|) && pars[i].Some? :: pars[i].value
  }

  ghost function Descending(n: nat): (r: map<nat, nat>)
  {
    map i | i in Positions(n) :: n - i
  }

  /** Position `i` hangs under `pars[i]`, children in list order. */
  ghost function ParentListShape(pars: seq<Option<nat>>): (s: Shape<nat>)
  {
    Shape(map i | i in Positions(|pars|) :: ChildrenIn(pars, i),
          ParentMap(pars), Descending(|pars|), |pars| + 1)
  }

  lemma {:induction false} ChildrenInCounts(pars: seq<Option<nat>>, p: nat, c: nat)
    ensures multiset(ChildrenIn(pars, p))[c] == if c < |pars| && pars[c] == Some(p) then 1 else 0
  {
    if pars != [] {
      ChildrenInCounts(pars[..|pars| - 1], p, c);
    }
  }

  lemma {:induction false} ParentListIsForest(pars: seq<Option<nat>>)
    requires forall i :: 0 <= i < |pars| && pars[i].Some? ==> pars[i].value < i
    ensures IsForest(ParentListShape(pars))
  {
    var s := ParentListShape(pars);
    forall p, c: nat | p in s.kids ensures SitsRight(s, p, c) {
      ChildrenInCounts(pars, p, c);
    }
    forall k, i | k in s.kids && 0 <= i < |s.kids[k]|
      ensures s.kids[k][i] in s.kids && s.rank[s.kids[k][i]] < s.rank[k]
    {
      ChildrenInCounts(pars, k, s.kids[k][i]);
      assert s.kids[k][i] in multiset(ChildrenIn(pars, k));
    }
  }

  lemma {:induction false} SingleRootIsTree(pars: seq<Option<nat>>)
    requires pars != [] && pars[0].None?
    requires forall i :: 0 < i < |pars| ==> pars[i].Some? && pars[i].value < i
    ensures IsTree(ParentListShape(pars), 0)
  {
    ParentListIsForest(pars);
    assert ParentMap(pars).Keys == Positions(|pars|) - {0};
  }

  ghost predicate AllBelow(at: seq<nat>, n: nat)
  {
    forall i :: 0 <= i < |at| ==> at[i] < n
  }

  /** The list entries at the given positions. */
  ghost function Names<T>(keys: seq<T>, at: seq<nat>): (r: seq<T>)
    requires AllBelow(at, |keys|)
    ensures |r| == |at| && forall i :: 0 <= i < |at| ==> r[i] == keys[at[i]]
  {
    seq(|at|, i requires 0 <= i < |at| => keys[at[i]])
  }

  /** If positions name their parents as the forest does, the children by position are the children by name. */
  lemma {:induction false} ChildrenNamed<T(!new)>(s: Shape<T>, keys: seq<T>, pars: seq<Option<nat>>, p: nat)
    requires |pars| == |keys| && p < |keys|
    requires forall i :: 0 <= i < |keys| ==> (pars[i] == Some(p) <==> keys[i] in s.par && s.par[keys[i]] == keys[p])
    ensures AllBelow(ChildrenIn(pars, p), |keys|)
    ensures Names(keys, ChildrenIn(pars, p)) == KidsIn(s, keys[p], keys)
  {
    ChildrenNamedUpTo(s, keys, pars, p, |keys|);
    assert pars[..|keys|] == pars && keys[..|keys|] == keys;
  }

  lemma {:induction false} ChildrenNamedUpTo<T(!new)>(s: Shape<T>, keys: seq<T>, pars: seq<Option<nat>>, p: nat, n: nat)
    requires |pars| == |keys| && p < |keys| && n <= |keys|
    requires forall i :: 0 <= i < |keys| ==> (pars[i] == Some(p) <==> keys[i] in s.par && s.par[keys[i]] == keys[p])
    ensures AllBelow(ChildrenIn(pars[..n], p), n)
    ensures Names(keys, ChildrenIn(pars[..n], p)) == KidsIn(s, keys[p], keys[..n])
    decreases n
  {
    if n > 0 {
      ChildrenNamedUpTo(s, keys, pars, p, n - 1);
      assert pars[..n][..n - 1] == pars[..n - 1];
      var x := keys[n - 1];
      assert keys[..n] == keys[..n - 1] + [x];
      KidsInConcat(s, keys[p], keys[..n - 1], [x]);
      assert [x][1..] == [];
      var before := ChildrenIn(pars[..n - 1], p);
      assert KidsIn(s, keys[p], [x]) == if pars[n - 1] == Some(p) then [x] else [];
      if pars[n - 1] == Some(p) {
        assert Names(keys, before + [n - 1]) == Names(keys, before) + [x];
      }
    }
  }
}
