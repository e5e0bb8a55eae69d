/** The closure loop and the walk over parents, on every table where messages and transactions have at most one
    partner. */
module TraceSearch {
  import opened Basics
  import opened Components

  datatype Direction = In | Out

  /** One end of a message: transaction `tx` consumes (In) or emits (Out) message `msg`. */
  datatype Row = Row(tx: Hash, msg: Hash, dir: Direction)

  ghost predicate Sound(rows: set<Row>, lt: map<Hash, nat>)
  {
    && (forall r :: r in rows ==> r.tx in lt)
    && (forall r, q :: r in rows && q in rows && r.dir == q.dir && r.msg == q.msg ==> r == q)
    && (forall r, q :: r in rows && q in rows && r.dir == In && q.dir == In && r.tx == q.tx ==> r == q)
    && (forall r, q :: r in rows && q in rows && r.dir == Out && q.dir == In && r.msg == q.msg ==>
          r.tx in lt && q.tx in lt && lt[r.tx] < lt[q.tx])
  }

  /** Sender and receiver of every message that has both. */
  function Links(rows: set<Row>): (r: set<(Hash, Hash)>)
  {
    set r, q | r in rows && q in rows && r.dir == Out && q.dir == In && r.msg == q.msg :: (r.tx, q.tx)
  }

  /** What the links of a sound table satisfy: one parent each, and logical time grows. */
  ghost predicate TreeLinks(links: set<(Hash, Hash)>, lt: map<Hash, nat>)
  {
    && (forall l :: l in links ==> l.0 in lt && l.1 in lt && lt[l.0] < lt[l.1])
    && (forall l, m :: l in links && m in links && l.1 == m.1 ==> l == m)
  }

  lemma {:induction false} SoundLinks(rows: set<Row>, lt: map<Hash, nat>)
    requires Sound(rows, lt)
    ensures TreeLinks(Links(rows), lt)
  {
  }

  // ----- the closure loop -----

  /** The self-join on the message hash: ends of new transactions with the other ends of the same messages. */
  function Joined(rows: set<Row>, newTxs: set<Hash>): (r: set<(Hash, Hash, Direction)>)
  {
    set r, q | r in rows && q in rows && r.msg == q.msg && r.tx in newTxs && r.tx != q.tx :: (r.tx, q.tx, r.dir)
  }

  function Oriented(t: (Hash, Hash, Direction)): (r: (Hash, Hash))
  {
    if t.2 == Out then (t.0, t.1) else (t.1, t.0)
  }

  /** The two columns that the loop takes from a query. */
  function Partners(res: set<(Hash, Hash, Direction)>): (r: set<Hash>)
  {
    set t | t in res :: t.1
  }

  function Edges(res: set<(Hash, Hash, Direction)>): (r: set<(Hash, Hash)>)
  {
    set t | t in res :: Oriented(t)
  }

  ghost function Touching(links: set<(Hash, Hash)>, s: set<Hash>): (r: set<(Hash, Hash)>)
  {
    set l | l in links && (l.0 in s || l.1 in s)
  }

  /** One query returns every link that touches the new transactions, rightly oriented. */
  lemma {:induction false} JoinedIsTouching(rows: set<Row>, lt: map<Hash, nat>, s: set<Hash>)
    requires Sound(rows, lt)
    ensures Edges(Joined(rows, s)) == Touching(Links(rows), s)
    ensures forall t :: t in Joined(rows, s) ==> t.0 in s && Oriented(t) in Links(rows)
    ensures forall l :: l in Links(rows) ==>
      && (l.0 in s ==> (l.0, l.1, Out) in Joined(rows, s))
      && (l.1 in s ==> (l.1, l.0, In) in Joined(rows, s))
  {
    var res := Joined(rows, s);
    var links := Links(rows);
    forall l | l in links ensures
      && (l.0 in s ==> (l.0, l.1, Out) in res)
      && (l.1 in s ==> (l.1, l.0, In) in res)
    {
      var r, q :| r in rows && q in rows && r.dir == Out && q.dir == In && r.msg == q.msg && l == (r.tx, q.tx);
      assert l.0 in s ==> (r.tx, q.tx, r.dir) in res;
      assert l.1 in s ==> (q.tx, r.tx, q.dir) in res;
    }
    forall t | t in res ensures t.0 in s && Oriented(t) in links {
      var r, q :| r in rows && q in rows && r.msg == q.msg && r.tx in s && r.tx != q.tx && t == (r.tx, q.tx, r.dir);
      assert r.dir != q.dir;
    }
    forall l | l in Touching(links, s) ensures l in Edges(res) {
      if l.0 in s {
        assert Oriented((l.0, l.1, Out)) == l;
      } else {
        assert Oriented((l.1, l.0, In)) == l;
      }
    }
  }

  ghost function Universe(rows: set<Row>, hash: Hash): (r: set<Hash>)
  {
    (set r | r in rows :: r.tx) + {hash}
  }

  /** What the loop knows when the transactions in `done` have been expanded. */
  ghost predicate Explored(links: set<(Hash, Hash)>, hash: Hash, txs: set<Hash>, done: set<Hash>,
                           edges: set<(Hash, Hash)>)
  {
    && hash in txs && done <= txs
    && edges == Touching(links, done)
    && (forall l :: l in edges ==> l.0 in txs && l.1 in txs)
    && (forall t :: t in txs ==> Connected(links, hash, t))
  }

  lemma {:induction false} ExploredStep(rows: set<Row>, lt: map<Hash, nat>, hash: Hash,
                                        txs: set<Hash>, newTxs: set<Hash>, edges: set<(Hash, Hash)>)
    requires Sound(rows, lt) && newTxs <= txs && Explored(Links(rows), hash, txs, txs - newTxs, edges)
    ensures var res := Joined(rows, newTxs);
      Explored(Links(rows), hash, txs + Partners(res), txs, edges + Edges(res))
  {
    var links := Links(rows);
    var res := Joined(rows, newTxs);
    JoinedIsTouching(rows, lt, newTxs);
    assert Touching(links, txs) == Touching(links, txs - newTxs) + Touching(links, newTxs);
    JoinedConnected(links, hash, txs, res);
    JoinedCloses(links, txs, newTxs, res);
  }

  lemma {:induction false} JoinedConnected(links: set<(Hash, Hash)>, hash: Hash, txs: set<Hash>,
                                           res: set<(Hash, Hash, Direction)>)
    requires forall t :: t in txs ==> Connected(links, hash, t)
    requires forall t :: t in res ==> t.0 in txs && Oriented(t) in links
    ensures forall t :: t in res ==> Connected(links, hash, t.1)
  {
    forall t | t in res ensures Connected(links, hash, t.1) {
      ConnectedLink(links, t.0, t.1);
      ConnectedJoin(links, hash, t.0, t.1);
    }
  }

  /** All ends of the links that touch the new transactions are among the next ones. */
  lemma {:induction false} JoinedCloses(links: set<(Hash, Hash)>, txs: set<Hash>, newTxs: set<Hash>,
                                        res: set<(Hash, Hash, Direction)>)
    requires newTxs <= txs
    requires forall l :: l in links ==>
      (l.0 in newTxs ==> (l.0, l.1, Out) in res) && (l.1 in newTxs ==> (l.1, l.0, In) in res)
    ensures forall l :: l in Touching(links, newTxs) ==> l.0 in txs + Partners(res) && l.1 in txs + Partners(res)
  {
    var next := txs + Partners(res);
    forall l | l in Touching(links, newTxs) ensures l.0 in next && l.1 in next {
      if l.0 in newTxs {
        assert (l.0, l.1, Out).1 in next;
      }
      if l.1 in newTxs {
        assert (l.1, l.0, In).1 in next;
      }
    }
  }

  lemma {:induction false} ExploredAll(links: set<(Hash, Hash)>, hash: Hash, txs: set<Hash>, edges: set<(Hash, Hash)>)
    requires Explored(links, hash, txs, txs, edges)
    ensures IsComponent(links, txs) && edges == Inside(links, txs)
  {
    forall a, b | a in txs && b in txs ensures Connected(links, a, b) {
      ConnectedBack(links, hash, a);
      ConnectedJoin(links, a, hash, b);
    }
    forall l | l in links ensures l.0 in txs <==> l.1 in txs {
      assert l.0 in txs || l.1 in txs ==> l in edges;
    }
  }

  ghost function Inside(links: set<(Hash, Hash)>, s: set<Hash>): (r: set<(Hash, Hash)>)
  {
    set l | l in links && l.0 in s && l.1 in s
  }

  lemma {:induction false} GrowsInside(u: set<Hash>, s: set<Hash>, found: set<Hash>)
    requires s <= u && found <= u
    ensures var more := found - s;
      && s + more == s + found && (s + more) - more == s && s + more <= u
      && (more == {} ==> u - (s + more) == u - s)
      && (more != {} ==> u - (s + more) < u - s)
  {
    var more := found - s;
    if more != {} {
      var t :| t in more;
      assert t in u - s && t !in u - (s + more);
    }
  }

  lemma {:induction false} LoopTurn(rows: set<Row>, lt: map<Hash, nat>, hash: Hash,
                                    txs: set<Hash>, newTxs: set<Hash>, edges: set<(Hash, Hash)>)
    requires Sound(rows, lt) && newTxs <= txs <= Universe(rows, hash)
    requires Explored(Links(rows), hash, txs, txs - newTxs, edges)
    ensures var res := Joined(rows, newTxs);
      var more := Partners(res) - txs;
      && txs + more <= Universe(rows, hash)
      && Explored(Links(rows), hash, txs + more, (txs + more) - more, edges + Edges(res))
      && (more == {} ==> Universe(rows, hash) - (txs + more) == Universe(rows, hash) - txs)
      && (more != {} ==> Universe(rows, hash) - (txs + more) < Universe(rows, hash) - txs)
  {
    ExploredStep(rows, lt, hash, txs, newTxs, edges);
    var found := Partners(Joined(rows, newTxs));
    assert found <= Universe(rows, hash);
    GrowsInside(Universe(rows, hash), txs, found);
  }

  /** The closure loop ends with exactly the connected component of the start transaction and all its links. */
  method CloseTrace(rows: set<Row>, hash: Hash, ghost lt: map<Hash, nat>)
    returns (txHashes: set<Hash>, edges: set<(Hash, Hash)>)
    requires Sound(rows, lt)
    ensures hash in txHashes
    ensures IsComponent(Links(rows), txHashes)
    ensures edges == Inside(Links(rows), txHashes)
  {
    txHashes, edges := {hash}, {};
    var newTxHashes := {hash};
    ConnectedSelf(Links(rows), hash);
    while newTxHashes != {}
      invariant newTxHashes <= txHashes <= Universe(rows, hash)
      invariant Explored(Links(rows), hash, txHashes, txHashes - newTxHashes, edges)
      decreases Universe(rows, hash) - txHashes, |newTxHashes|
    {
      LoopTurn(rows, lt, hash, txHashes, newTxHashes, edges);
      var res := Joined(rows, newTxHashes);
      edges := edges + Edges(res);
      newTxHashes := Partners(res) - txHashes;
      txHashes := txHashes + newTxHashes;
    }
    assert txHashes - newTxHashes == txHashes;
    ExploredAll(Links(rows), hash, txHashes, edges);
  }

  // ----- parents and the root -----

  ghost function ParentIn(links: set<(Hash, Hash)>, lt: map<Hash, nat>): (r: map<Hash, Hash>)
    requires TreeLinks(links, lt)
    ensures forall l :: l in links ==> l.1 in r && r[l.1] == l.0
    ensures forall b :: b in r ==> (r[b], b) in links
  {
    map l | l in links :: l.1 := l.0
  }

  ghost function RootOf(links: set<(Hash, Hash)>, lt: map<Hash, nat>, t: Hash): (r: Hash)
    requires TreeLinks(links, lt)
    decreases if t in lt then lt[t] else 0
  {
    var par := ParentIn(links, lt);
    if t in par then assert (par[t], t) in links; RootOf(links, lt, par[t]) else t
  }

  lemma {:induction false} RootHasNoParent(links: set<(Hash, Hash)>, lt: map<Hash, nat>, t: Hash)
    requires TreeLinks(links, lt)
    ensures RootOf(links, lt, t) !in ParentIn(links, lt)
    ensures Connected(links, t, RootOf(links, lt, t))
    decreases if t in lt then lt[t] else 0
  {
    var par := ParentIn(links, lt);
    if t in par {
      assert (par[t], t) in links;
      RootHasNoParent(links, lt, par[t]);
      ConnectedLink(links, t, par[t]);
      ConnectedJoin(links, t, par[t], RootOf(links, lt, t));
    } else {
      ConnectedSelf(links, t);
    }
  }

  /** Every transaction of a component has the same root, and that root is in the component. */
  lemma {:induction false} OneRootPerComponent(links: set<(Hash, Hash)>, lt: map<Hash, nat>, s: set<Hash>, a: Hash,
                                               b: Hash)
    requires TreeLinks(links, lt) && IsComponent(links, s) && a in s && b in s
    ensures RootOf(links, lt, a) == RootOf(links, lt, b)
    ensures RootOf(links, lt, a) in s
  {
    RootHasNoParent(links, lt, a);
    ComponentExactly(links, s, a, RootOf(links, lt, a));
    var p: seq<Hash> :| IsPath(links, p, a, b);
    OneRootPerPath(links, lt, p, a, b);
  }

  lemma {:induction false} LinkSameRoot(links: set<(Hash, Hash)>, lt: map<Hash, nat>, l: (Hash, Hash))
    requires TreeLinks(links, lt) && l in links
    ensures RootOf(links, lt, l.0) == RootOf(links, lt, l.1)
  {
    assert ParentIn(links, lt)[l.1] == l.0;
  }

  lemma {:induction false} OneRootPerPath(links: set<(Hash, Hash)>, lt: map<Hash, nat>, p: seq<Hash>, a: Hash, b: Hash)
    requires TreeLinks(links, lt) && IsPath(links, p, a, b)
    ensures RootOf(links, lt, a) == RootOf(links, lt, b)
  {
    var roots := map t | t in lt.Keys + {a, b} :: RootOf(links, lt, t);
    forall l | l in links ensures l.0 in roots && l.1 in roots && roots[l.0] == roots[l.1] {
      LinkSameRoot(links, lt, l);
    }
    ConstantOnPath(links, roots, p, a, b);
  }

  /** The closure loop's root set has exactly one member, the root that the parents lead to. */
  lemma {:induction false} SingleRoot(links: set<(Hash, Hash)>, lt: map<Hash, nat>, s: set<Hash>, t: Hash)
    requires TreeLinks(links, lt) && IsComponent(links, s) && t in s
    ensures s - (set l | l in Inside(links, s) :: l.1) == {RootOf(links, lt, t)}
  {
    var root := RootOf(links, lt, t);
    var par := ParentIn(links, lt);
    var targets := set l | l in Inside(links, s) :: l.1;
    RootHasNoParent(links, lt, t);
    OneRootPerComponent(links, lt, s, t, t);
    assert root !in targets;
    forall b | b in s && b !in targets ensures b == root {
      OneRootPerComponent(links, lt, s, b, t);
    }
  }

  lemma {:induction false} SameSizeAsTargets(edges: set<(Hash, Hash)>)
    requires forall l, m :: l in edges && m in edges && l.1 == m.1 ==> l == m
    ensures |set l | l in edges :: l.1| == |edges|
    decreases |edges|
  {
    if edges != {} {
      var e :| e in edges;
      var rest := edges - {e};
      SameSizeAsTargets(rest);
      assert (set l | l in edges :: l.1) == (set l | l in rest :: l.1) + {e.1};
      assert e.1 !in set l | l in rest :: l.1;
    }
  }

  /** A component has one link fewer than transactions. */
  lemma {:induction false} OneLinkFewer(links: set<(Hash, Hash)>, lt: map<Hash, nat>, s: set<Hash>, t: Hash)
    requires TreeLinks(links, lt) && IsComponent(links, s) && t in s
    ensures |Inside(links, s)| == |s| - 1
  {
    SingleRoot(links, lt, s, t);
    SameSizeAsTargets(Inside(links, s));
    OneMore(s, set l | l in Inside(links, s) :: l.1, RootOf(links, lt, t));
  }

  lemma {:induction false} OneMore(s: set<Hash>, targets: set<Hash>, root: Hash)
    requires s - targets == {root} && targets <= s
    ensures |targets| == |s| - 1
  {
    assert s == targets + {root} && root !in targets;
  }

  /** The walk over parents stops and returns that root, for any start. */
  method TraceGetRoot(rows: set<Row>, hash: Hash, ghost lt: map<Hash, nat>) returns (current: Hash)
    requires Sound(rows, lt)
    ensures TreeLinks(Links(rows), lt) && current == RootOf(Links(rows), lt, hash)
  {
    SoundLinks(rows, lt);
    ghost var links := Links(rows);
    current := hash;
    var parent: Option<Hash> := Some(hash);
    while parent.Some?
      invariant RootOf(links, lt, current) == RootOf(links, lt, hash)
      invariant parent.None? ==> current !in ParentIn(links, lt)
      decreases parent.Some?, if current in lt then lt[current] else 0
    {
      var msg := SelectMsg(rows, current);
      parent := SelectSender(rows, msg);
      WalkStep(rows, lt, current, msg, parent);
      if parent.Some? { current := parent.value; }
    }
  }

  lemma {:induction false} WalkStep(rows: set<Row>, lt: map<Hash, nat>, current: Hash, msg: Option<Hash>,
                                    parent: Option<Hash>)
    requires Sound(rows, lt) && TreeLinks(Links(rows), lt)
    requires msg.Some? ==> Row(current, msg.value, In) in rows
    requires msg.None? ==> forall r :: r in rows ==> !(r.tx == current && r.dir == In)
    requires parent.Some? ==> msg.Some? && Row(parent.value, msg.value, Out) in rows
    requires parent.None? ==> forall r :: r in rows ==> !(Some(r.msg) == msg && r.dir == Out)
    ensures var par := ParentIn(Links(rows), lt);
      if current in par then parent == Some(par[current]) else parent == None
    ensures parent.Some? ==> parent.value in lt && current in lt && lt[parent.value] < lt[current]
  {
    var links := Links(rows);
    var par := ParentIn(links, lt);
    if parent.Some? {
      var r, q := Row(parent.value, msg.value, Out), Row(current, msg.value, In);
      assert r in rows && q in rows;
      assert (r.tx, q.tx) in links;
    }
  }

  /** The first query of the walk: an in-message of the transaction, if there is one. */
  method SelectMsg(rows: set<Row>, tx: Hash) returns (m: Option<Hash>)
    ensures m.Some? ==> Row(tx, m.value, In) in rows
    ensures m.None? ==> forall r :: r in rows ==> !(r.tx == tx && r.dir == In)
  {
    if r :| r in rows && r.tx == tx && r.dir == In { m := Some(r.msg); } else { m := None; }
  }

  /** The second query of the walk: a sender of the message; no row matches a missing message. */
  method SelectSender(rows: set<Row>, m: Option<Hash>) returns (p: Option<Hash>)
    ensures p.Some? ==> m.Some? && Row(p.value, m.value, Out) in rows
    ensures p.None? ==> forall r :: r in rows ==> !(Some(r.msg) == m && r.dir == Out)
  {
    if r :| r in rows && Some(r.msg) == m && r.dir == Out { p := Some(r.tx); } else { p := None; }
  }
}
