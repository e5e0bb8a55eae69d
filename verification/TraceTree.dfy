/** The tree that the closure loop's edges make, in any order, and the recursive descent from its root. */
module TraceTree {
  import opened Basics
  import opened Forest
  import opened Components
  import opened TraceSearch

  /** The receivers linked to `a`, in the order of the edge list. */
  ghost function KidsList(es: seq<(Hash, Hash)>, a: Hash): (r: seq<Hash>)
  {
    if es == [] then []
    else
      var n := |es| - 1;
      KidsList(es[..n], a) + if es[n].0 == a then [es[n].1] else []
  }

  lemma {:induction false} KidsListCounts(es: seq<(Hash, Hash)>, a: Hash, b: Hash)
    ensures multiset(KidsList(es, a))[b] == multiset(es)[(a, b)]
  {
    if es != [] {
      var n := |es| - 1;
      KidsListCounts(es[..n], a, b);
      assert es == es[..n] + [es[n]];
    }
  }

  ghost function LargestLt(lt: map<Hash, nat>): (r: nat)
    ensures forall t :: t in lt ==> lt[t] <= r
  {
    if lt == map[] then 0
    else
      var t :| t in lt;
      var rest := LargestLt(lt - {t});
      assert forall u :: u in lt && u != t ==> u in lt - {t};
      if lt[t] > rest then lt[t] else rest
  }

  ghost function Depth(lt: map<Hash, nat>, t: Hash): (r: nat)
    ensures r <= LargestLt(lt)
  {
    LargestLt(lt) - if t in lt then lt[t] else 0
  }

  /** The component `s` as a forest: children in the order of the edge list, rank from logical time. */
  ghost function ComponentShape(links: set<(Hash, Hash)>, lt: map<Hash, nat>, s: set<Hash>,
                                es: seq<(Hash, Hash)>): (r: Shape<Hash>)
    requires TreeLinks(links, lt)
  {
    Shape(map t | t in s :: KidsList(es, t),
          map t | t in s && t in ParentIn(links, lt) :: ParentIn(links, lt)[t],
          map t | t in s :: Depth(lt, t),
          LargestLt(lt) + 1)
  }

  ghost predicate Lists(es: seq<(Hash, Hash)>, edges: set<(Hash, Hash)>)
  {
    multiset(es) == multiset(edges)
  }

  lemma {:induction false} KidsAreChildren(links: set<(Hash, Hash)>, lt: map<Hash, nat>, s: set<Hash>,
                                           es: seq<(Hash, Hash)>, p: Hash, c: Hash)
    requires TreeLinks(links, lt) && Closed(links, s) && Lists(es, Inside(links, s)) && p in s
    ensures multiset(KidsList(es, p))[c] ==
      if c in s && c in ParentIn(links, lt) && ParentIn(links, lt)[c] == p then 1 else 0
  {
    KidsListCounts(es, p, c);
    assert (p, c) in Inside(links, s) <==> c in s && (p, c) in links;
    assert (p, c) in links <==> c in ParentIn(links, lt) && ParentIn(links, lt)[c] == p;
  }

  lemma {:induction false} DepthFalls(links: set<(Hash, Hash)>, lt: map<Hash, nat>, c: Hash)
    requires TreeLinks(links, lt) && c in ParentIn(links, lt)
    ensures Depth(lt, c) < Depth(lt, ParentIn(links, lt)[c])
  {
    assert (ParentIn(links, lt)[c], c) in links;
  }

  lemma {:induction false} ComponentIsForest(links: set<(Hash, Hash)>, lt: map<Hash, nat>, s: set<Hash>,
                                             es: seq<(Hash, Hash)>)
    requires TreeLinks(links, lt) && Closed(links, s) && Lists(es, Inside(links, s))
    ensures IsForest(ComponentShape(links, lt, s, es))
  {
    var shape := ComponentShape(links, lt, s, es);
    var par := ParentIn(links, lt);
    forall p, c: Hash | p in shape.kids ensures SitsRight(shape, p, c) {
      KidsAreChildren(links, lt, s, es, p, c);
    }
    forall k, i | k in shape.kids && 0 <= i < |shape.kids[k]|
      ensures shape.kids[k][i] in shape.kids && shape.rank[shape.kids[k][i]] < shape.rank[k]
    {
      var c := KidsList(es, k)[i];
      assert c in multiset(KidsList(es, k));
      KidsAreChildren(links, lt, s, es, k, c);
      DepthFalls(links, lt, c);
    }
    forall c | c in shape.par ensures c in shape.kids && shape.par[c] in shape.kids {
      assert (par[c], c) in links;
    }
  }

  /** Whatever order the edges are taken in, they make a tree over the component, with its root on top. */
  lemma {:induction false} EdgesMakeTree(links: set<(Hash, Hash)>, lt: map<Hash, nat>, s: set<Hash>,
                                         es: seq<(Hash, Hash)>, t: Hash)
    requires TreeLinks(links, lt) && IsComponent(links, s) && t in s && Lists(es, Inside(links, s))
    ensures IsTree(ComponentShape(links, lt, s, es), RootOf(links, lt, t))
  {
    var shape := ComponentShape(links, lt, s, es);
    RootIsOnlyOrphan(links, lt, s, t);
    assert shape.par.Keys == shape.kids.Keys - {RootOf(links, lt, t)};
    ComponentIsForest(links, lt, s, es);
  }

  lemma {:induction false} RootIsOnlyOrphan(links: set<(Hash, Hash)>, lt: map<Hash, nat>, s: set<Hash>, t: Hash)
    requires TreeLinks(links, lt) && IsComponent(links, s) && t in s
    ensures RootOf(links, lt, t) in s
    ensures forall c :: c in s ==> (c in ParentIn(links, lt) <==> c != RootOf(links, lt, t))
  {
    RootHasNoParent(links, lt, t);
    OneRootPerComponent(links, lt, s, t, t);
    forall c | c in s && c !in ParentIn(links, lt) ensures c == RootOf(links, lt, t) {
      OneRootPerComponent(links, lt, s, c, t);
    }
  }

  /** The tree built from the edges reaches every transaction of the component exactly once. */
  lemma {:induction false} TreeReachesOnce(links: set<(Hash, Hash)>, lt: map<Hash, nat>, s: set<Hash>,
                                           es: seq<(Hash, Hash)>, t: Hash)
    requires TreeLinks(links, lt) && IsComponent(links, s) && t in s && Lists(es, Inside(links, s))
    ensures IsTree(ComponentShape(links, lt, s, es), RootOf(links, lt, t))
    ensures var shape := ComponentShape(links, lt, s, es);
      multiset(Unfold(shape, shape.top, [RootOf(links, lt, t)])) == multiset(s)
  {
    EdgesMakeTree(links, lt, s, es, t);
    var shape := ComponentShape(links, lt, s, es);
    TreeUnfoldsOnce(shape, RootOf(links, lt, t));
    assert shape.kids.Keys == s;
  }

  // ----- the tree on heap nodes -----

  class TreeNode {
    const tx: Hash
    var children: seq<TreeNode>

    constructor (tx: Hash)
      ensures this.tx == tx && children == []
    {
      this.tx, children := tx, [];
    }
  }

  ghost function NodesNamed(nodes: map<Hash, TreeNode>, names: seq<Hash>): (r: seq<TreeNode>)
    requires forall i :: 0 <= i < |names| ==> names[i] in nodes
    ensures |r| == |names| && forall i :: 0 <= i < |names| ==> r[i] == nodes[names[i]]
  {
    seq(|names|, i requires 0 <= i < |names| => nodes[names[i]])
  }

  ghost function Ends(es: seq<(Hash, Hash)>): (r: set<Hash>)
  {
    if es == [] then {} else Ends(es[..|es| - 1]) + {es[|es| - 1].0, es[|es| - 1].1}
  }

  lemma {:induction false} KidsListInEnds(es: seq<(Hash, Hash)>, a: Hash)
    ensures forall b :: b in KidsList(es, a) ==> b in Ends(es)
    ensures a !in Ends(es) ==> KidsList(es, a) == []
  {
    if es != [] {
      KidsListInEnds(es[..|es| - 1], a);
    }
  }

  /** One node for each end of a listed edge, each carrying its listed children. */
  ghost predicate Holds(nodes: map<Hash, TreeNode>, es: seq<(Hash, Hash)>)
    reads nodes.Values
  {
    nodes.Keys == Ends(es) && Carries(nodes, es)
  }

  ghost predicate Carries(nodes: map<Hash, TreeNode>, es: seq<(Hash, Hash)>)
    reads nodes.Values
  {
    && Ends(es) <= nodes.Keys
    && (forall a :: a in nodes ==> nodes[a].tx == a && CarriesKids(nodes, es, a))
  }

  ghost predicate CarriesKids(nodes: map<Hash, TreeNode>, es: seq<(Hash, Hash)>, a: Hash)
    requires a in nodes
    reads nodes[a]
  {
    && (forall b :: b in KidsList(es, a) ==> b in nodes)
    && nodes[a].children == NodesNamed(nodes, KidsList(es, a))
  }

  /** The nodes with one for `a`, made on first use. */
  method WithNode(nodes: map<Hash, TreeNode>, a: Hash, ghost es: seq<(Hash, Hash)>) returns (r: map<Hash, TreeNode>)
    requires Carries(nodes, es)
    ensures r.Keys == nodes.Keys + {a} && Carries(r, es)
    ensures forall b :: b in nodes ==> r[b] == nodes[b]
    ensures a !in nodes ==> fresh(r[a])
  {
    r := nodes;
    if a !in nodes {
      var node := new TreeNode(a);
      r := r[a := node];
      KidsListInEnds(es, a);
      forall b | b in nodes ensures CarriesKids(r, es, b) {
        assert CarriesKids(nodes, es, b);
        NodesNamedSame(nodes, r, KidsList(es, b));
      }
    }
  }

  /** The loop over the edge set. Sets have no order: any edge may come next. */
  method BuildTree(edges: set<(Hash, Hash)>) returns (nodes: map<Hash, TreeNode>, ghost es: seq<(Hash, Hash)>)
    requires forall e :: e in edges ==> e.0 != e.1
    ensures Lists(es, edges) && Holds(nodes, es)
    ensures forall a :: a in nodes ==> fresh(nodes[a])
  {
    nodes, es := map[], [];
    var left := edges;
    while left != {}
      invariant left <= edges && multiset(es) + multiset(left) == multiset(edges)
      invariant Holds(nodes, es)
      invariant forall a :: a in nodes ==> fresh(nodes[a])
      decreases left
    {
      var e :| e in left;
      nodes := AddEdge(nodes, e, es);
      assert multiset(left) == multiset(left - {e}) + multiset{e};
      left, es := left - {e}, es + [e];
    }
  }

  lemma {:induction false} KidsListMore(es: seq<(Hash, Hash)>, e: (Hash, Hash), a: Hash)
    ensures KidsList(es + [e], a) == KidsList(es, a) + if e.0 == a then [e.1] else []
    ensures Ends(es + [e]) == Ends(es) + {e.0, e.1}
  {
    assert (es + [e])[..|es|] == es;
  }

  lemma {:induction false} NodesNamedSame(nodes: map<Hash, TreeNode>, more: map<Hash, TreeNode>, names: seq<Hash>)
    requires forall b :: b in names ==> b in nodes
    requires forall b :: b in nodes ==> b in more && more[b] == nodes[b]
    ensures NodesNamed(more, names) == NodesNamed(nodes, names)
  {
  }

  /** One turn of the loop: the receiver becomes the sender's last child. */
  method AddEdge(nodes: map<Hash, TreeNode>, e: (Hash, Hash), ghost es: seq<(Hash, Hash)>)
    returns (nodes': map<Hash, TreeNode>)
    requires Holds(nodes, es) && e.0 != e.1
    modifies nodes.Values
    ensures Holds(nodes', es + [e])
    ensures forall a :: a in nodes' ==> (a in nodes && nodes'[a] == nodes[a]) || fresh(nodes'[a])
  {
    nodes' := WithBoth(nodes, e, es);
    LinkChild(nodes', e, es);
  }

  /** The nodes with one for either end of an edge. */
  method WithBoth(nodes: map<Hash, TreeNode>, e: (Hash, Hash), ghost es: seq<(Hash, Hash)>)
    returns (r: map<Hash, TreeNode>)
    requires Carries(nodes, es)
    ensures r.Keys == nodes.Keys + {e.0, e.1} && Carries(r, es)
    ensures forall a :: a in r ==> (a in nodes && r[a] == nodes[a]) || fresh(r[a])
  {
    r := WithNode(nodes, e.0, es);
    r := WithNode(r, e.1, es);
  }

  method LinkChild(nodes: map<Hash, TreeNode>, e: (Hash, Hash), ghost es: seq<(Hash, Hash)>)
    requires nodes.Keys == Ends(es) + {e.0, e.1} && Carries(nodes, es)
    modifies nodes[e.0]
    ensures Holds(nodes, es + [e])
  {
    nodes[e.0].children := nodes[e.0].children + [nodes[e.1]];
    KidsListMore(es, e, e.0);
    forall a | a in nodes ensures CarriesKids(nodes, es + [e], a) {
      KidsListMore(es, e, a);
      if a == e.0 {
        assert NodesNamed(nodes, KidsList(es, a) + [e.1]) == NodesNamed(nodes, KidsList(es, a)) + [nodes[e.1]];
      } else {
        assert nodes[a].tx != nodes[e.0].tx;
      }
    }
  }

  // ----- the whole search -----

  lemma {:induction false} RootHasChild(links: set<(Hash, Hash)>, lt: map<Hash, nat>, t: Hash)
    requires TreeLinks(links, lt) && t in ParentIn(links, lt)
    ensures exists l :: l in links && l.0 == RootOf(links, lt, t)
    decreases if t in lt then lt[t] else 0
  {
    var p := ParentIn(links, lt)[t];
    assert (p, t) in links && RootOf(links, lt, t) == RootOf(links, lt, p);
    if p in ParentIn(links, lt) {
      RootHasChild(links, lt, p);
    } else {
      assert (p, t).0 == RootOf(links, lt, t);
    }
  }

  lemma {:induction false} EndsOf(es: seq<(Hash, Hash)>, e: (Hash, Hash))
    requires e in es
    ensures e.0 in Ends(es) && e.1 in Ends(es)
  {
    if e != es[|es| - 1] {
      assert e in es[..|es| - 1];
      EndsOf(es[..|es| - 1], e);
    }
  }

  /** The root is missing from the nodes exactly when the component is the start transaction alone. */
  lemma {:induction false} RootInNodes(links: set<(Hash, Hash)>, lt: map<Hash, nat>, s: set<Hash>,
                                       es: seq<(Hash, Hash)>, t: Hash)
    requires TreeLinks(links, lt) && IsComponent(links, s) && t in s && Lists(es, Inside(links, s))
    ensures RootOf(links, lt, t) in Ends(es) <==> s != {t}
  {
    var root := RootOf(links, lt, t);
    OneRootPerComponent(links, lt, s, t, t);
    if s == {t} {
      assert Inside(links, s) == {};
      assert |multiset(es)| == 0;
    } else {
      var u :| u in s && u != root;
      RootIsOnlyOrphan(links, lt, s, t);
      OneRootPerComponent(links, lt, s, u, t);
      RootHasChild(links, lt, u);
      var l :| l in links && l.0 == root;
      assert l in Inside(links, s);
      assert l in multiset(es);
      EndsOf(es, l);
    }
  }

  /** The closure loop, the tree and the root. The source asserts that there is one root, and fails to look it
      up when the start transaction has no link; the latter is `root == null` here. */
  method GetTransactionTrace(rows: set<Row>, hash: Hash, ghost lt: map<Hash, nat>)
    returns (root: TreeNode?, ghost comp: set<Hash>, ghost nodes: map<Hash, TreeNode>, ghost es: seq<(Hash, Hash)>)
    requires Sound(rows, lt)
    ensures TreeLinks(Links(rows), lt) && hash in comp && IsComponent(Links(rows), comp)
    ensures Lists(es, Inside(Links(rows), comp)) && Holds(nodes, es)
    ensures root == null <==> comp == {hash}
    ensures root == null <==> forall l :: l in Links(rows) ==> l.0 != hash && l.1 != hash
    ensures root != null ==>
      var r := RootOf(Links(rows), lt, hash); r in nodes && root == nodes[r] && root.tx == r
  {
    SoundLinks(rows, lt);
    var txHashes, edges := CloseTrace(rows, hash, lt);
    var built;
    built, es := BuildTree(edges);
    var rootHashes := txHashes - (set e | e in edges :: e.1);
    SingleRoot(Links(rows), lt, txHashes, hash);
    assert |rootHashes| == 1;
    var rootHash :| rootHash in rootHashes;
    RootInNodes(Links(rows), lt, txHashes, es, hash);
    comp, nodes := txHashes, built;
    AloneMeansUnlinked(Links(rows), comp, hash);
    root := if rootHash in built then built[rootHash] else null;
  }

  // ----- the recursive descent -----

  /** The join of one transaction's out-messages with their receivers, in any order. */
  method Receivers(rows: set<Row>, t: Hash, ghost lt: map<Hash, nat>) returns (bs: seq<Hash>)
    requires Sound(rows, lt)
    ensures forall b :: multiset(bs)[b] == if (t, b) in Links(rows) then 1 else 0
  {
    PairsMeanLinks(rows, lt, t);
    bs := ListTargets(Pairs(rows, t));
  }

  method ListTargets(all: set<(Row, Row)>) returns (bs: seq<Hash>)
    requires forall x, y :: x in all && y in all && x.1.tx == y.1.tx ==> x == y
    ensures multiset(bs) == multiset(Targets(all))
  {
    bs := [];
    var pairs := all;
    while pairs != {}
      invariant pairs <= all
      invariant multiset(bs) == multiset(Targets(all - pairs))
      decreases pairs
    {
      var x :| x in pairs;
      TargetsMore(all, all - pairs, x);
      assert all - (pairs - {x}) == (all - pairs) + {x};
      pairs, bs := pairs - {x}, bs + [x.1.tx];
    }
    assert all - pairs == all;
  }

  function Pairs(rows: set<Row>, t: Hash): (r: set<(Row, Row)>)
  {
    set r, q | r in rows && q in rows && r.tx == t && r.dir == Out && q.dir == In && r.msg == q.msg :: (r, q)
  }

  ghost function Targets(pairs: set<(Row, Row)>): (r: set<Hash>)
  {
    set x | x in pairs :: x.1.tx
  }

  lemma {:induction false} TargetsMore(all: set<(Row, Row)>, done: set<(Row, Row)>, x: (Row, Row))
    requires forall x, y :: x in all && y in all && x.1.tx == y.1.tx ==> x == y
    requires done <= all && x in all && x !in done
    ensures multiset(Targets(done + {x})) == multiset(Targets(done)) + multiset{x.1.tx}
  {
    assert Targets(done + {x}) == Targets(done) + {x.1.tx};
    assert x.1.tx !in Targets(done);
  }

  lemma {:induction false} PairsMeanLinks(rows: set<Row>, lt: map<Hash, nat>, t: Hash)
    requires Sound(rows, lt)
    ensures forall b :: b in Targets(Pairs(rows, t)) <==> (t, b) in Links(rows)
    ensures forall x, y :: x in Pairs(rows, t) && y in Pairs(rows, t) && x.1.tx == y.1.tx ==> x == y
  {
    forall b | (t, b) in Links(rows) ensures b in Targets(Pairs(rows, t)) {
      var r, q :| r in rows && q in rows && r.dir == Out && q.dir == In && r.msg == q.msg && (t, b) == (r.tx, q.tx);
      assert (r, q) in Pairs(rows, t);
      assert (r, q).1.tx == b;
    }
  }

  lemma {:induction false} ReceiversAreKids(links: set<(Hash, Hash)>, lt: map<Hash, nat>, s: set<Hash>,
                                            es: seq<(Hash, Hash)>, t: Hash, bs: seq<Hash>)
    requires TreeLinks(links, lt) && Closed(links, s) && Lists(es, Inside(links, s)) && t in s
    requires forall b :: multiset(bs)[b] == if (t, b) in links then 1 else 0
    ensures multiset(bs) == multiset(KidsList(es, t))
  {
    forall b ensures multiset(bs)[b] == multiset(KidsList(es, t))[b] {
      KidsListCounts(es, t, b);
      assert (t, b) in Inside(links, s) <==> (t, b) in links;
    }
  }

  /** One round of the recursive query: the joins of all rows of the working table, duplicates kept. */
  method NextRound(rows: set<Row>, level: seq<Hash>, ghost lt: map<Hash, nat>, ghost s: set<Hash>,
                   ghost es: seq<(Hash, Hash)>)
    returns (next: seq<Hash>)
    requires Sound(rows, lt) && TreeLinks(Links(rows), lt)
    requires Closed(Links(rows), s) && Lists(es, Inside(Links(rows), s))
    requires forall i :: 0 <= i < |level| ==> level[i] in s
    ensures multiset(next) == multiset(NextLevel(ComponentShape(Links(rows), lt, s, es), level))
  {
    ghost var shape := ComponentShape(Links(rows), lt, s, es);
    next := [];
    for i := 0 to |level|
      invariant multiset(next) + multiset(NextLevel(shape, level[i..])) == multiset(NextLevel(shape, level))
    {
      var bs := Receivers(rows, level[i], lt);
      ReceiversAreKids(Links(rows), lt, s, es, level[i], bs);
      LevelFrom(shape, level, i);
      next := next + bs;
    }
    assert level[|level|..] == [];
  }

  /** The way over parents from `x` leads to `a`. */
  ghost predicate Under(links: set<(Hash, Hash)>, lt: map<Hash, nat>, a: Hash, x: Hash)
    requires TreeLinks(links, lt)
    decreases if x in lt then lt[x] else 0
  {
    var par := ParentIn(links, lt);
    a == x || (x in par && (assert (par[x], x) in links; Under(links, lt, a, par[x])))
  }

  lemma {:induction false} UnderIsAncestor(links: set<(Hash, Hash)>, lt: map<Hash, nat>, s: set<Hash>,
                                           es: seq<(Hash, Hash)>, a: Hash, x: Hash)
    requires TreeLinks(links, lt) && Closed(links, s) && IsForest(ComponentShape(links, lt, s, es)) && x in s
    ensures Ancestor(ComponentShape(links, lt, s, es), a, x) <==> Under(links, lt, a, x)
    decreases if x in lt then lt[x] else 0
  {
    var par := ParentIn(links, lt);
    if x in par {
      assert (par[x], x) in links;
      UnderIsAncestor(links, lt, s, es, a, par[x]);
    }
  }

  /** What is under a member of a closed set is in it. */
  lemma {:induction false} UnderStays(links: set<(Hash, Hash)>, lt: map<Hash, nat>, s: set<Hash>, a: Hash, x: Hash)
    requires TreeLinks(links, lt) && Closed(links, s) && a in s && Under(links, lt, a, x)
    ensures x in s
    decreases if x in lt then lt[x] else 0
  {
    var par := ParentIn(links, lt);
    if a != x {
      assert (par[x], x) in links;
      UnderStays(links, lt, s, a, par[x]);
    }
  }

  /** Every transaction of a component is under its root. */
  lemma {:induction false} UnderRoot(links: set<(Hash, Hash)>, lt: map<Hash, nat>, x: Hash)
    requires TreeLinks(links, lt)
    ensures Under(links, lt, RootOf(links, lt, x), x)
    decreases if x in lt then lt[x] else 0
  {
    var par := ParentIn(links, lt);
    if x in par {
      assert (par[x], x) in links;
      UnderRoot(links, lt, par[x]);
    }
  }

  /** `all` lists every transaction under `start` once, and nothing else. */
  ghost predicate ListsUnder(links: set<(Hash, Hash)>, lt: map<Hash, nat>, start: Hash, all: seq<Hash>)
    requires TreeLinks(links, lt)
  {
    forall x :: multiset(all)[x] == if Under(links, lt, start, x) then 1 else 0
  }

  lemma {:induction false} UnfoldsUnder(links: set<(Hash, Hash)>, lt: map<Hash, nat>, s: set<Hash>,
                                        es: seq<(Hash, Hash)>, start: Hash, all: seq<Hash>)
    requires TreeLinks(links, lt) && Closed(links, s) && IsForest(ComponentShape(links, lt, s, es)) && start in s
    requires var shape := ComponentShape(links, lt, s, es); multiset(all) == multiset(Unfold(shape, shape.top, [start]))
    ensures ListsUnder(links, lt, start, all)
  {
    var shape := ComponentShape(links, lt, s, es);
    var listing := Unfold(shape, shape.top, [start]);
    forall x ensures multiset(listing)[x] == if Under(links, lt, start, x) then 1 else 0 {
      if x in s {
        UnfoldCounts(shape, shape.top, [start], x);
        UnderIsAncestor(links, lt, s, es, start, x);
        assert AncestorsIn(shape, [start], x)
          == (if Ancestor(shape, start, x) then 1 else 0) + AncestorsIn(shape, [], x);
      } else {
        if x in listing { UnfoldInside(shape, shape.top, [start], x); }
        if Under(links, lt, start, x) { UnderStays(links, lt, s, start, x); }
      }
    }
  }

  /** From any transaction the descent stops and lists it and everything under it, each once. */
  method TraceGetTransactions(rows: set<Row>, start: Hash, ghost lt: map<Hash, nat>, ghost s: set<Hash>)
    returns (all: seq<Hash>)
    requires Sound(rows, lt) && IsComponent(Links(rows), s) && start in s
    ensures TreeLinks(Links(rows), lt) && ListsUnder(Links(rows), lt, start, all)
  {
    SoundLinks(rows, lt);
    all := Descend(rows, start, lt, s, Listing(Inside(Links(rows), s)));
  }

  /** From the root the descent lists the whole component, from any other transaction less. */
  lemma {:induction false} WholeFromRoot(links: set<(Hash, Hash)>, lt: map<Hash, nat>, s: set<Hash>, start: Hash,
                                         all: seq<Hash>)
    requires TreeLinks(links, lt) && IsComponent(links, s) && start in s && ListsUnder(links, lt, start, all)
    ensures multiset(all) == multiset(s) <==> start == RootOf(links, lt, start)
  {
    var root := RootOf(links, lt, start);
    if start == root {
      forall x ensures multiset(all)[x] == multiset(s)[x] {
        if x in s {
          OneRootPerComponent(links, lt, s, x, start);
          UnderRoot(links, lt, x);
        } else if Under(links, lt, start, x) {
          UnderStays(links, lt, s, start, x);
        }
      }
    } else {
      RootHasNoParent(links, lt, start);
      OneRootPerComponent(links, lt, s, start, start);
      assert multiset(all)[root] == 0 && multiset(s)[root] == 1;
    }
  }

  /** The rounds of the recursive query, against any listing of the component's edges. */
  method Descend(rows: set<Row>, start: Hash, ghost lt: map<Hash, nat>, ghost s: set<Hash>, ghost es: seq<(Hash, Hash)>)
    returns (all: seq<Hash>)
    requires Sound(rows, lt) && TreeLinks(Links(rows), lt) && IsComponent(Links(rows), s) && start in s
    requires Lists(es, Inside(Links(rows), s))
    ensures ListsUnder(Links(rows), lt, start, all)
  {
    ghost var shape := ComponentShape(Links(rows), lt, s, es);
    ComponentIsForest(Links(rows), lt, s, es);
    all := [];
    var level := [start];
    while level != []
      invariant Below(shape, shape.top, level)
      invariant multiset(all) + multiset(Unfold(shape, shape.top, level)) == multiset(Unfold(shape, shape.top, [start]))
      decreases |Unfold(shape, shape.top, level)|
    {
      var next := NextRound(rows, level, lt, s, es);
      RoundStep(shape, level, next);
      all, level := all + level, next;
    }
    UnfoldsUnder(Links(rows), lt, s, es, start, all);
  }

  lemma {:induction false} SameEntriesBelow(s: Shape<Hash>, u: seq<Hash>, v: seq<Hash>)
    requires Below(s, s.top, u) && multiset(u) == multiset(v)
    ensures Below(s, s.top, v)
  {
    forall i | 0 <= i < |v| ensures v[i] in s.kids && v[i] in s.rank && s.rank[v[i]] < s.top {
      assert v[i] in multiset(u);
    }
  }

  /** The three ways agree: from any two transactions of a component the walk over parents ends at the same root,
      which is the one the closure loop leaves, and the descent from there lists exactly the component. */
  lemma {:induction false} ThreeWaysAgree(links: set<(Hash, Hash)>, lt: map<Hash, nat>, s: set<Hash>,
                                          es: seq<(Hash, Hash)>, a: Hash, b: Hash)
    requires TreeLinks(links, lt) && IsComponent(links, s) && a in s && b in s && Lists(es, Inside(links, s))
    ensures RootOf(links, lt, a) == RootOf(links, lt, b)
    ensures s - (set l | l in Inside(links, s) :: l.1) == {RootOf(links, lt, a)}
    ensures |Inside(links, s)| == |s| - 1
    ensures IsTree(ComponentShape(links, lt, s, es), RootOf(links, lt, b))
    ensures var shape := ComponentShape(links, lt, s, es);
      multiset(Unfold(shape, shape.top, [RootOf(links, lt, b)])) == multiset(s)
  {
    OneRootPerComponent(links, lt, s, a, b);
    SingleRoot(links, lt, s, a);
    OneLinkFewer(links, lt, s, a);
    TreeReachesOnce(links, lt, s, es, b);
  }

  ghost function Listing(edges: set<(Hash, Hash)>): (es: seq<(Hash, Hash)>)
    ensures Lists(es, edges)
  {
    if edges == {} then []
    else
      var e :| e in edges;
      assert multiset(edges) == multiset(edges - {e}) + multiset{e};
      Listing(edges - {e}) + [e]
  }

  /** A round takes the level off the listing, whatever order the next one comes in. */
  lemma {:induction false} RoundStep(s: Shape<Hash>, level: seq<Hash>, next: seq<Hash>)
    requires IsForest(s) && Below(s, s.top, level) && multiset(next) == multiset(NextLevel(s, level))
    ensures Below(s, s.top, next)
    ensures multiset(Unfold(s, s.top, level)) == multiset(level) + multiset(Unfold(s, s.top, next))
    ensures |Unfold(s, s.top, level)| == |level| + |Unfold(s, s.top, next)|
  {
    LevelStep(s, level);
    SameEntriesBelow(s, NextLevel(s, level), next);
    UnfoldUnordered(s, NextLevel(s, level), next);
    SameSize(Unfold(s, s.top, next), Unfold(s, s.top, NextLevel(s, level)));
  }

  lemma {:induction false} LevelFrom<T>(s: Shape<T>, level: seq<T>, i: nat)
    requires i < |level| && forall k :: 0 <= k < |level| ==> level[k] in s.kids
    ensures NextLevel(s, level[i..]) == s.kids[level[i]] + NextLevel(s, level[i + 1..])
  {
    assert level[i..][1..] == level[i + 1..];
  }

  lemma {:induction false} SameSize<T>(u: seq<T>, v: seq<T>)
    requires multiset(u) == multiset(v)
    ensures |u| == |v|
  {
    assert |multiset(u)| == |u| && |multiset(v)| == |v|;
  }

  /** A component is one transaction alone if and only if no link touches it. */
  lemma {:induction false} AloneMeansUnlinked(links: set<(Hash, Hash)>, s: set<Hash>, t: Hash)
    requires IsComponent(links, s) && t in s && forall l :: l in links ==> l.0 != l.1
    ensures s == {t} <==> forall l :: l in links ==> l.0 != t && l.1 != t
  {
    if forall l :: l in links ==> l.0 != t && l.1 != t {
      forall u | u in s ensures u == t {
        ComponentExactly(links, s, t, u);
        var p :| IsPath(links, p, t, u);
        assert |p| > 1 ==> Linked(links, p[0], p[0 + 1]);
      }
    }
  }
}
