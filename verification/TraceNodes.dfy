/** The assembly loop on heap nodes, proved against the value-level assembly. */
module TraceNodes {
  import opened Basics
  import opened TraceAssembly

  class TraceNode {
    const txHash: Hash
    const inMsgHash: Hash
    var children: seq<TraceNode>

    constructor (txHash: Hash, inMsgHash: Hash)
      ensures this.txHash == txHash && this.inMsgHash == inMsgHash && children == []
    {
      this.txHash, this.inMsgHash, children := txHash, inMsgHash, [];
    }
  }

  ghost function NodesAt(made: seq<TraceNode>, at: seq<nat>): (r: seq<TraceNode>)
    requires forall i :: 0 <= i < |at| ==> at[i] < |made|
    ensures |r| == |at| && forall i :: 0 <= i < |at| ==> r[i] == made[at[i]]
  {
    seq(|at|, i requires 0 <= i < |at| => made[at[i]])
  }

  ghost predicate Distinct(made: seq<TraceNode>)
  {
    forall i, j :: 0 <= i < j < |made| ==> made[i] != made[j]
  }

  ghost function ChildrenOf(made: seq<TraceNode>): (r: seq<seq<TraceNode>>)
    reads made
    ensures |r| == |made| && forall i :: 0 <= i < |made| ==> r[i] == made[i].children
  {
    seq(|made|, i requires 0 <= i < |made| reads made => made[i].children)
  }

  /** The `i`-th child list is the one of the value-level assembly. */
  ghost predicate KeptAt(lists: seq<seq<TraceNode>>, made: seq<TraceNode>, kids: seq<seq<nat>>, i: nat)
  {
    i < |lists| && i < |kids| ==>
      (forall k :: 0 <= k < |kids[i]| ==> kids[i][k] < |made|) && lists[i] == NodesAt(made, kids[i])
  }

  ghost predicate Kept(lists: seq<seq<TraceNode>>, made: seq<TraceNode>, kids: seq<seq<nat>>)
  {
    |lists| == |kids| && forall i: nat :: KeptAt(lists, made, kids, i)
  }

  /** The heap nodes carry exactly the value-level assembly `a`. */
  ghost predicate Holds(made: seq<TraceNode>, a: Assembly)
    reads made
  {
    |made| == |a.kids| && InRange(a) && Kept(ChildrenOf(made), made, a.kids)
  }

  ghost predicate SamePending(nodes: map<Hash, TraceNode>, pending: map<Hash, nat>, made: seq<TraceNode>)
  {
    nodes.Keys == pending.Keys && forall m :: m in pending ==> pending[m] < |made| && nodes[m] == made[pending[m]]
  }

  function TxsAt(order: seq<Hash>, txs: map<Hash, Tx>): (r: seq<Tx>)
    requires forall i :: 0 <= i < |order| ==> order[i] in txs
    ensures |r| == |order| && forall i :: 0 <= i < |order| ==> r[i] == txs[order[i]]
  {
    seq(|order|, i requires 0 <= i < |order| => txs[order[i]])
  }

  lemma {:induction false} RegisterConcat(pending: map<Hash, nat>, u: seq<Hash>, m: Hash, i: nat)
    ensures Register(pending, u + [m], i) == Register(pending, u, i)[m := i]
  {
  }

  lemma {:induction false} AssembleConcat(txs: seq<Tx>, tx: Tx)
    ensures Assemble(txs + [tx]) == Attach(Assemble(txs), tx)
  {
    assert (txs + [tx])[..|txs|] == txs;
  }

  lemma {:induction false} AssembleNext(list: seq<Tx>, i: nat)
    requires i < |list|
    ensures Assemble(list[..i + 1]) == Attach(Assemble(list[..i]), list[i])
  {
    assert list[..i + 1] == list[..i] + [list[i]];
    AssembleConcat(list[..i], list[i]);
  }

  lemma {:induction false} NodesAtGrow(made: seq<TraceNode>, node: TraceNode, at: seq<nat>)
    requires forall i :: 0 <= i < |at| ==> at[i] < |made|
    ensures NodesAt(made + [node], at) == NodesAt(made, at)
    ensures NodesAt(made + [node], at + [|made|]) == NodesAt(made, at) + [node]
  {
  }

  /** Registers the node as sender of each of its out-messages. */
  method RegisterNode(nodes: map<Hash, TraceNode>, msgs: seq<Hash>, node: TraceNode,
                      ghost pending: map<Hash, nat>, ghost made: seq<TraceNode>) returns (r: map<Hash, TraceNode>)
    requires SamePending(nodes, pending, made)
    ensures SamePending(r, Register(pending, msgs, |made|), made + [node])
  {
    r := nodes;
    for i := 0 to |msgs|
      invariant SamePending(r, Register(pending, msgs[..i], |made|), made + [node])
    {
      assert msgs[..i + 1] == msgs[..i] + [msgs[i]];
      RegisterConcat(pending, msgs[..i], msgs[i], |made|);
      r := r[msgs[i] := node];
    }
    assert msgs[..|msgs|] == msgs;
  }

  lemma {:induction false} DistinctGrow(made: seq<TraceNode>, node: TraceNode)
    requires Distinct(made) && node !in made
    ensures Distinct(made + [node])
  {
    var all := made + [node];
    forall i, j | 0 <= i < j < |all| ensures all[i] != all[j] {
      assert all[i] == made[i];
      assert j < |made| ==> all[j] == made[j];
    }
  }

  /** The sender that the map gives for the consumed message is the one that the assembly finds. */
  lemma {:induction false} PendingResolved(nodes: map<Hash, TraceNode>, a: Assembly, tx: Tx, all: seq<TraceNode>)
    requires InRange(a) && SamePending(nodes, Register(a.pending, tx.outMsgs, |a.kids|), all)
    ensures InHash(tx) in nodes <==> Lookup(a, tx).Some?
    ensures InHash(tx) in nodes ==> Lookup(a, tx).value < |all| && nodes[InHash(tx)] == all[Lookup(a, tx).value]
    ensures SamePending(nodes - {InHash(tx)}, Attach(a, tx).pending, all)
  {
  }

  ghost predicate RootIs(root: TraceNode?, a: Assembly, made: seq<TraceNode>)
  {
    match a.root
    case None => root == null
    case Some(i) => i < |made| && root == made[i]
  }

  /** The child lists after a turn: an empty one for the new node, which joins the list of its parent. */
  ghost function Joined(lists: seq<seq<TraceNode>>, node: TraceNode, parent: Option<nat>): (r: seq<seq<TraceNode>>)
  {
    var more := lists + [[]];
    if parent.Some? && parent.value < |more| then more[parent.value := more[parent.value] + [node]] else more
  }

  lemma {:induction false} JoinedKept(lists: seq<seq<TraceNode>>, made: seq<TraceNode>, node: TraceNode, a: Assembly,
                                      tx: Tx)
    requires |made| == |lists| == |a.kids| && InRange(a) && Kept(lists, made, a.kids)
    ensures Kept(Joined(lists, node, Lookup(a, tx)), made + [node], Attach(a, tx).kids)
  {
    var after, kids := Joined(lists, node, Lookup(a, tx)), Attach(a, tx).kids;
    AttachMeans(a, tx);
    var all := made + [node];
    forall i: nat ensures KeptAt(after, all, kids, i) {
      assert KeptAt(lists, made, a.kids, i);
      if i < |made| { NodesAtGrow(made, node, a.kids[i]); }
      assert NodesAt(all, []) == [] && NodesAt(all, [|made|]) == [node];
    }
  }

  /** The parent, if it is known, takes the new node. */
  method JoinParent(parent: TraceNode?, node: TraceNode, ghost all: seq<TraceNode>, ghost p: Option<nat>,
                    ghost lists: seq<seq<TraceNode>>)
    requires Distinct(all) && (parent == null <==> p.None?) && (p.Some? ==> p.value < |all| && all[p.value] == parent)
    requires ChildrenOf(all) == lists + [[]]
    modifies all
    ensures ChildrenOf(all) == Joined(lists, node, p)
  {
    if parent != null {
      parent.children := parent.children + [node];
      forall j | 0 <= j < |all| && j != p.value ensures all[j] != parent {
        if j < p.value { assert all[j] != all[p.value]; } else { assert all[p.value] != all[j]; }
      }
    }
  }

  /** A new node without children, registered as sender of its out-messages. */
  method MakeNode(hash: Hash, tx: Tx, nodes: map<Hash, TraceNode>, ghost pending: map<Hash, nat>,
                  ghost made: seq<TraceNode>)
    returns (node: TraceNode, nodes': map<Hash, TraceNode>)
    requires Distinct(made) && SamePending(nodes, pending, made)
    ensures fresh(node) && node.txHash == hash && node.inMsgHash == InHash(tx)
    ensures Distinct(made + [node]) && ChildrenOf(made + [node]) == old(ChildrenOf(made)) + [[]]
    ensures SamePending(nodes', Register(pending, tx.outMsgs, |made|), made + [node])
  {
    node := new TraceNode(hash, InHash(tx));
    nodes' := RegisterNode(nodes, tx.outMsgs, node, pending, made);
    DistinctGrow(made, node);
  }

  /** One turn of the loop: a new node, linked to its parent if that is known. */
  method AttachNode(hash: Hash, tx: Tx, nodes: map<Hash, TraceNode>, root: TraceNode?, warning: bool,
                    ghost a: Assembly, ghost made: seq<TraceNode>)
    returns (nodes': map<Hash, TraceNode>, root': TraceNode?, warning': bool, node: TraceNode)
    requires Distinct(made) && Carried(made, nodes, root, warning, a)
    modifies made
    ensures fresh(node) && node.txHash == hash && node.inMsgHash == InHash(tx)
    ensures Distinct(made + [node]) && Carried(made + [node], nodes', root', warning', Attach(a, tx))
  {
    ghost var lists := ChildrenOf(made);
    node, nodes' := MakeNode(hash, tx, nodes, a.pending, made);
    ghost var all := made + [node];
    PendingResolved(nodes', a, tx, all);
    AttachMeans(a, tx);
    var parent := if InHash(tx) in nodes' then nodes'[InHash(tx)] else null;
    JoinedKept(lists, made, node, a, tx);
    JoinParent(parent, node, all, Lookup(a, tx), lists);
    nodes' := nodes' - {InHash(tx)};
    root', warning' := root, warning;
    if parent == null {
      if root == null { root' := node; } else { warning' := true; }
    }
  }

  /** The `i`-th node is that of the `i`-th transaction. */
  ghost predicate Labelled(made: seq<TraceNode>, order: seq<Hash>, txs: map<Hash, Tx>, i: nat)
  {
    i < |made| && i < |order| && order[i] in txs ==>
      made[i].txHash == order[i] && made[i].inMsgHash == InHash(txs[order[i]])
  }

  lemma {:induction false} LabelledMore(made: seq<TraceNode>, node: TraceNode, order: seq<Hash>, txs: map<Hash, Tx>)
    requires forall i: nat :: Labelled(made, order, txs, i)
    requires |made| < |order| && order[|made|] in txs
    requires node.txHash == order[|made|] && node.inMsgHash == InHash(txs[order[|made|]])
    ensures forall i: nat :: Labelled(made + [node], order, txs, i)
  {
    var all := made + [node];
    forall i: nat ensures Labelled(all, order, txs, i) {
      assert Labelled(made, order, txs, i);
    }
  }

  /** The heap and the loop's variables carry the value-level assembly `a`. */
  ghost predicate Carried(made: seq<TraceNode>, nodes: map<Hash, TraceNode>, root: TraceNode?, warning: bool,
                          a: Assembly)
    reads made
  {
    Holds(made, a) && SamePending(nodes, a.pending, made) && warning == a.warning && RootIs(root, a, made)
  }

  /** The `i`-th turn of the value-level assembly. */
  ghost predicate Turned(trail: seq<Assembly>, list: seq<Tx>, i: nat)
  {
    i + 1 < |trail| && i < |list| ==> InRange(trail[i]) && trail[i + 1] == Attach(trail[i], list[i])
  }

  lemma {:induction false} TurnedMore(trail: seq<Assembly>, list: seq<Tx>, n: nat)
    requires |trail| == n + 1 && n < |list| && InRange(trail[n]) && forall i: nat :: Turned(trail, list, i)
    ensures forall i: nat :: Turned(trail + [Attach(trail[n], list[n])], list, i)
  {
    var more := trail + [Attach(trail[n], list[n])];
    forall i: nat ensures Turned(more, list, i) {
      assert Turned(trail, list, i);
    }
  }

  lemma {:induction false} TrailEnds(trail: seq<Assembly>, list: seq<Tx>, n: nat)
    requires n <= |list| && n < |trail| && trail[0] == Assemble([]) && forall i: nat :: Turned(trail, list, i)
    ensures trail[n] == Assemble(list[..n])
  {
    if n == 0 {
      assert list[..0] == [];
    } else {
      TrailEnds(trail, list, n - 1);
      assert Turned(trail, list, n - 1);
      AssembleNext(list, n - 1);
    }
  }

  /** The loop of the assembly, linking nodes through pointers. `made` lists the nodes in creation order. */
  method AssembleTraceTxsFromMap(order: seq<Hash>, txs: map<Hash, Tx>)
    returns (root: TraceNode?, warning: bool, ghost made: seq<TraceNode>)
    requires forall i :: 0 <= i < |order| ==> order[i] in txs
    ensures |made| == |order| && Distinct(made) && fresh(made)
    ensures forall i: nat :: Labelled(made, order, txs, i)
    ensures Holds(made, Assemble(TxsAt(order, txs)))
    ensures warning == Assemble(TxsAt(order, txs)).warning
    ensures RootIs(root, Assemble(TxsAt(order, txs)), made)
  {
    var nodes: map<Hash, TraceNode> := map[];
    root, warning, made := null, false, [];
    ghost var list := TxsAt(order, txs);
    ghost var trail := [Assemble([])];
    for i := 0 to |order|
      invariant |made| == i && |trail| == i + 1 && trail[0] == Assemble([]) && Distinct(made) && fresh(made)
      invariant (forall j: nat :: Labelled(made, order, txs, j)) && (forall j: nat :: Turned(trail, list, j))
      invariant Carried(made, nodes, root, warning, trail[i])
    {
      var node;
      nodes, root, warning, node := AttachNode(order[i], txs[order[i]], nodes, root, warning, trail[i], made);
      LabelledMore(made, node, order, txs);
      TurnedMore(trail, list, i);
      made, trail := made + [node], trail + [Attach(trail[i], list[i])];
    }
    TrailEnds(trail, list, |list|);
    assert list[..|list|] == list;
  }
}
