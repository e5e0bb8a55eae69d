/** The fee totals of a complete trace, account by account. */
module BalanceFeeTotals {
  import opened Basics
  import opened Forest
  import opened Cycles
  import opened QueueLoops
  import opened Sums
  import opened Balances
  import opened BalanceTrace
  import opened BalanceBuild
  import opened BalanceConservation
  import opened BalanceFees

  /** What an account pays for running a transaction. */
  function Own(tx: Tx, a: Address): (r: int)
  {
    if tx.account == a then OrZero(tx.totalFees) else 0
  }

  /** What it pays for the messages it sends. */
  function Forwards(ms: seq<Message>, a: Address): (r: int)
  {
    if ms == [] then 0
    else (if ms[0].source == Some(a) then OrZero(ms[0].fwdFee) else 0) + Forwards(ms[1..], a)
  }

  /** All that an account owes in a trace, from the transactions alone. */
  function FeeShare(txs: seq<Tx>, a: Address): (r: int)
  {
    if txs == [] then 0 else Own(txs[0], a) + Forwards(txs[0].outMsgs, a) + FeeShare(txs[1..], a)
  }

  /** What an account pays for the messages it sends to nobody. */
  function LogForwards(ms: seq<Message>, a: Address): (r: int)
  {
    if ms == [] then 0
    else
      var m := ms[|ms| - 1];
      LogForwards(ms[..|ms| - 1], a) + if IsLog(m) && m.source == Some(a) then OrZero(m.fwdFee) else 0
  }

  function LogShare(txs: seq<Tx>, a: Address): (r: int)
  {
    if txs == [] then 0 else LogForwards(txs[0].outMsgs, a) + LogShare(txs[1..], a)
  }

  // ----- each node is visited once -----

  lemma {:induction false} FirstTurnsOnce(nodes: Nodes, l: Ledger, order: seq<NodeId>, id: NodeId)
    requires Known(nodes, order) && Distinct(order) && id in nodes && nodes[id].msg.Some?
    requires id in order ==> id !in l
    ensures id in order ==>
      id in FirstTurns(nodes, l, order) && FirstTurns(nodes, l, order)[id] == Visit(EMPTY, nodes[id], Prev(nodes, id))
    ensures id !in order && id in l ==> id in FirstTurns(nodes, l, order) && FirstTurns(nodes, l, order)[id] == l[id]
    decreases |order|
  {
    if order != [] {
      FirstTurnsOnce(nodes, FirstTurn(nodes, l, order[0]), order[1..], id);
    }
  }

  /** The weight of a node is what it has after its jettons have been moved. */
  ghost predicate Weighs(nodes: Nodes, wallets: Wallets, l: Ledger, w: map<NodeId, int>, i: Item, id: NodeId)
  {
    && id in nodes && id in w && id in l && nodes[id].msg.Some? && !Unread(nodes[id])
    && w[id] == Amount(Moved(l[id], nodes[id], wallets), i)
  }

  /** The second traversal adds up what the nodes have, if it visits each once. */
  lemma {:induction false} SecondTotals(nodes: Nodes, wallets: Wallets, l: Ledger, total: Changes, order: seq<NodeId>,
                                        w: map<NodeId, int>, i: Item)
    requires Known(nodes, order) && Distinct(order) && Weighed(order, w)
    requires forall k :: 0 <= k < |order| ==> Weighs(nodes, wallets, l, w, i, order[k])
    ensures Amount(SecondTurns(nodes, wallets, l, total, order).1, i) == Amount(total, i) + Total(order, w)
    decreases |order|
  {
    if order != [] {
      var (m, t) := SecondTurn(nodes, wallets, l, total, order[0]);
      assert Weighs(nodes, wallets, l, w, i, order[0]);
      MergeAmount(total, m[order[0]], i);
      forall k | 0 <= k < |order[1..]| ensures Weighs(nodes, wallets, m, w, i, order[1..][k]) {
        assert Weighs(nodes, wallets, l, w, i, order[k + 1]);
      }
      SecondTotals(nodes, wallets, m, t, order[1..], w, i);
    }
  }

  // ----- what a visit charges -----

  /** The fees of the messages to nobody that a visit adds. */
  lemma {:induction false} LogFeesAdd(fees: Amounts, to: Address, outs: seq<Message>, a: Address)
    requires forall i :: 0 <= i < |outs| ==> outs[i].source == Some(to)
    ensures Get(LogFees(fees, to, outs), a) == Get(fees, a) + LogForwards(outs, a)
  {
    if outs != [] { LogFeesAdd(fees, to, outs[..|outs| - 1], a); }
  }

  /** The forward fee of the message that led to a node. */
  function Incoming(node: Node, prev: Option<Node>, a: Address): (r: int)
    requires node.msg.Some?
  {
    Get(Forwarded(EMPTY, node.msg.value, prev).fees, a)
  }

  /** The node of a transaction is charged its fees, those of its messages to nobody, and the message that led to it. */
  lemma {:induction false} VisitFees(node: Node, prev: Option<Node>, a: Address)
    requires Whole(node.tx) && node.msg == node.tx.inMsg && node.isIn
    ensures Get(Visit(EMPTY, node, prev).fees, a)
      == Own(node.tx, a) + LogForwards(node.tx.outMsgs, a) + Incoming(node, prev, a)
  {
    var m := node.msg.value;
    var d := Forwarded(EMPTY, m, prev);
    LogFeesAdd(Plus(d.fees, Or(m.destination), OrZero(node.tx.totalFees)), Or(m.destination), node.tx.outMsgs, a);
  }

  lemma {:induction false} FirstIs(outs: seq<Message>, i: nat)
    requires i < |outs| && forall k :: 0 <= k < i ==> outs[k].hash != outs[i].hash
    ensures FirstWith(outs, outs[i].hash) == Some(outs[i])
  {
    if i > 0 { FirstIs(outs[1..], i - 1); }
  }

  /** The message that led to a child, as found in the parent's transaction. */
  lemma {:induction false} ChildEmission(t: Trace, nodes: Nodes, j: nat, i: nat)
    requires Finished(t, nodes) && j < |t.txs| && i < |t.txs[j].outMsgs|
    ensures var m, c := t.txs[j].outMsgs[i], ChildAt(t, t.txs[j], i);
      && c in nodes && nodes[c].msg.Some? && nodes[c].msg.value.source == Some(t.txs[j].account)
      && m.source == Some(t.txs[j].account) && Emission(nodes[c].msg.value, Prev(nodes, c)) == Some(m)
  {
    var outs := t.txs[j].outMsgs;
    LinkBothWays(t, nodes, j, i);
    NodeOf(t, nodes, j);
    BuiltNode(t, nodes, OfTx(t.txs[j].hash));
    ChildComesFirst(t, j, i);
    forall k | 0 <= k < i ensures outs[k].hash != outs[i].hash {
      ChildComesFirst(t, j, k);
    }
    FirstIs(outs, i);
  }

  /** A child, transaction or message to nobody, is charged the forward fee of the message that led to it. */
  lemma {:induction false} ChildCharged(t: Trace, nodes: Nodes, j: nat, i: nat, a: Address)
    requires Finished(t, nodes) && j < |t.txs| && i < |t.txs[j].outMsgs|
    ensures var m, c := t.txs[j].outMsgs[i], ChildAt(t, t.txs[j], i);
      && c in nodes && nodes[c].msg.Some?
      && Incoming(nodes[c], Prev(nodes, c), a) == if m.source == Some(a) then OrZero(m.fwdFee) else 0
  {
    ChildEmission(t, nodes, j, i);
  }

  // ----- totals -----

  ghost function Incomings(nodes: Nodes, a: Address): (r: map<NodeId, int>)
  {
    map id | id in nodes && nodes[id].msg.Some? :: Incoming(nodes[id], Prev(nodes, id), a)
  }

  lemma {:induction false} ChildrenTotal(t: Trace, nodes: Nodes, j: nat, i: nat, a: Address)
    requires Finished(t, nodes) && j < |t.txs| && i <= |t.txs[j].outMsgs|
    ensures var rest := Children(t, t.txs[j], |t.txs[j].outMsgs|)[i..];
      Weighed(rest, Incomings(nodes, a)) && Total(rest, Incomings(nodes, a)) == Forwards(t.txs[j].outMsgs[i..], a)
    decreases |t.txs[j].outMsgs| - i
  {
    var outs := t.txs[j].outMsgs;
    if i < |outs| {
      var all := Children(t, t.txs[j], |outs|);
      ChildrenTotal(t, nodes, j, i + 1, a);
      ChildCharged(t, nodes, j, i, a);
      assert outs[i..][1..] == outs[i + 1..];
      assert all[i..][1..] == all[i + 1..];
    }
  }

  ghost function KidsTotals<T(!new)>(s: Shape<T>, w: map<T, int>): (r: map<T, int>)
    requires forall id :: id in s.kids ==> Weighed(s.kids[id], w)
  {
    map id | id in s.kids :: Total(s.kids[id], w)
  }

  /** Everything in the queue order was in the queue or is a child of something in the order. */
  lemma {:induction false} QueueTotal<T(!new)>(s: Shape<T>, queue: seq<T>, w: map<T, int>)
    requires Ranked(s) && Below(s, s.top, queue)
    requires (forall id :: id in s.kids ==> id in w) && (forall id :: id in s.kids ==> Weighed(s.kids[id], w))
    ensures Weighed(QueueOrder(s, queue), w) && Weighed(queue, w) && Weighed(QueueOrder(s, queue), KidsTotals(s, w))
    ensures Total(QueueOrder(s, queue), w) == Total(queue, w) + Total(QueueOrder(s, queue), KidsTotals(s, w))
    decreases |Unfold(s, s.top, queue)|
  {
    if queue != [] {
      var q, rest := queue[0], queue[1..];
      QueueTurn(s, queue);
      QueueTotal(s, rest + s.kids[q], w);
      TotalConcat(rest, s.kids[q], w);
    }
  }

  ghost function Ids(txs: seq<Tx>): (r: seq<NodeId>)
    ensures |r| == |txs| && forall i :: 0 <= i < |txs| ==> r[i] == OfTx(txs[i].hash)
  {
    seq(|txs|, i requires 0 <= i < |txs| => OfTx(txs[i].hash))
  }

  /** The nodes of the transactions, each once. */
  lemma {:induction false} IdsAreNodes(t: Trace, nodes: Nodes)
    requires Finished(t, nodes)
    ensures Distinct(Ids(t.txs)) && forall id :: id in Ids(t.txs) <==> id in nodes && id.OfTx?
  {
    var ids := Ids(t.txs);
    forall i, j | 0 <= i < j < |ids| ensures ids[i] != ids[j] {
      NodeOf(t, nodes, i);
      NodeOf(t, nodes, j);
    }
    forall id ensures id in ids <==> id in nodes && id.OfTx? {
      if id in nodes && id.OfTx? {
        BuiltNode(t, nodes, id);
        assert ids[t.pos[id.tx]] == id;
      }
      if id in ids {
        var i :| 0 <= i < |ids| && ids[i] == id;
        NodeOf(t, nodes, i);
      }
    }
  }

  /** Where the other nodes weigh nothing, any listing of the nodes weighs as much as the transactions. */
  lemma {:induction false} TotalOfIds(t: Trace, nodes: Nodes, order: seq<NodeId>, w: map<NodeId, int>)
    requires Finished(t, nodes) && Distinct(order) && Weighed(order, w) && Weighed(Ids(t.txs), w)
    requires (forall id :: id in order <==> id in nodes)
    requires (forall id :: id in nodes && id in w && id.OfLog? ==> w[id] == 0)
    ensures Total(order, w) == Total(Ids(t.txs), w)
  {
    IdsAreNodes(t, nodes);
    TotalOnly(order, Ids(t.txs), w);
  }

  ghost function Shares(nodes: Nodes, a: Address): (r: map<NodeId, int>)
  {
    map id | id in nodes :: if id.OfTx? then Owns(nodes, a)[id] + Forwards(nodes[id].tx.outMsgs, a) else 0
  }

  lemma {:induction false} SharesTotal(t: Trace, nodes: Nodes, n: nat, a: Address)
    requires Finished(t, nodes) && n <= |t.txs|
    ensures Weighed(Ids(t.txs[n..]), Shares(nodes, a))
    ensures Total(Ids(t.txs[n..]), Shares(nodes, a)) == FeeShare(t.txs[n..], a) + LogShare(t.txs[n..], a)
    decreases |t.txs| - n
  {
    if n < |t.txs| {
      SharesTotal(t, nodes, n + 1, a);
      NodeOf(t, nodes, n);
      BuiltNode(t, nodes, OfTx(t.txs[n].hash));
      assert t.txs[n..][1..] == t.txs[n + 1..];
      assert Ids(t.txs[n..])[1..] == Ids(t.txs[n + 1..]);
    }
  }

  ghost function VisitTotals(nodes: Nodes, a: Address): (r: map<NodeId, int>)
  {
    map id | id in nodes && nodes[id].msg.Some? :: Get(Visit(EMPTY, nodes[id], Prev(nodes, id)).fees, a)
  }

  ghost function Owns(nodes: Nodes, a: Address): (r: map<NodeId, int>)
  {
    map id | id in nodes :: if id.OfTx? then Own(nodes[id].tx, a) + LogForwards(nodes[id].tx.outMsgs, a) else 0
  }

  /** What the node of a transaction is charged, and what its children are. */
  lemma {:induction false} TxCharges(t: Trace, nodes: Nodes, id: NodeId, a: Address)
    requires Finished(t, nodes) && id in nodes && id.OfTx?
    ensures nodes[id].msg.Some?
    ensures VisitTotals(nodes, a)[id] == Owns(nodes, a)[id] + Incomings(nodes, a)[id]
    ensures Weighed(nodes[id].next, Incomings(nodes, a))
    ensures Shares(nodes, a)[id] == Owns(nodes, a)[id] + Total(nodes[id].next, Incomings(nodes, a))
  {
    BuiltNode(t, nodes, id);
    var j := t.pos[id.tx];
    VisitFees(nodes[id], Prev(nodes, id), a);
    ChildrenTotal(t, nodes, j, 0, a);
    assert t.txs[j].outMsgs[0..] == t.txs[j].outMsgs;
    assert nodes[id].next[0..] == nodes[id].next;
  }

  /** The node of a message to nobody is charged its forward fee only, and has no children. */
  lemma {:induction false} LogCharges(t: Trace, nodes: Nodes, id: NodeId, a: Address)
    requires Finished(t, nodes) && id in nodes && id.OfLog?
    ensures nodes[id].msg.Some? && nodes[id].next == []
    ensures VisitTotals(nodes, a)[id] == Incomings(nodes, a)[id]
  {
    BuiltLog(t, nodes, id);
  }

  lemma {:induction false} OrderKnown<T>(s: Shape<T>, queue: seq<T>)
    requires Ranked(s) && Below(s, s.top, queue)
    ensures forall i :: 0 <= i < |QueueOrder(s, queue)| ==> QueueOrder(s, queue)[i] in s.kids
    decreases |Unfold(s, s.top, queue)|
  {
    if queue != [] {
      UnfoldStep(s, queue);
      OrderKnown(s, queue[1..] + s.kids[queue[0]]);
    }
  }

  /** Over a tree, charging a node for its parent's message is as good as charging the parent for it. */
  lemma {:induction false} ChargedToParent<T(!new)>(s: Shape<T>, root: T, own: map<T, int>, inc: map<T, int>,
                                                    all: map<T, int>, shares: map<T, int>)
    requires IsTree(s, root) && root in inc && inc[root] == 0
    requires forall id :: id in s.kids ==> Charges(s, own, inc, all, shares, id)
    ensures var order := QueueOrder(s, [root]);
      Weighed(order, all) && Weighed(order, shares) && Total(order, all) == Total(order, shares)
  {
    var order := QueueOrder(s, [root]);
    OrderKnown(s, [root]);
    forall id | id in s.kids ensures id in inc && Weighed(s.kids[id], inc) {
      assert Charges(s, own, inc, all, shares, id);
    }
    QueueTotal(s, [root], inc);
    forall i | 0 <= i < |order| ensures Charges(s, own, inc, all, shares, order[i]) {
    }
    TotalSplits(order, own, inc, all);
    TotalSplits(order, own, KidsTotals(s, inc), shares);
    assert Total([root], inc) == inc[root] + Total([], inc);
  }

  ghost predicate Charges<T(!new)>(s: Shape<T>, own: map<T, int>, inc: map<T, int>, all: map<T, int>,
                                   shares: map<T, int>, id: T)
    requires id in s.kids
  {
    && id in own && id in inc && id in all && id in shares && Weighed(s.kids[id], inc)
    && all[id] == own[id] + inc[id] && shares[id] == own[id] + Total(s.kids[id], inc)
  }

  lemma {:induction false} SharesInOrder(t: Trace, nodes: Nodes, order: seq<NodeId>, a: Address)
    requires Finished(t, nodes) && Distinct(order) && (forall id :: id in order <==> id in nodes)
    ensures Weighed(order, Shares(nodes, a))
    ensures Total(order, Shares(nodes, a)) == FeeShare(t.txs, a) + LogShare(t.txs, a)
  {
    SharesTotal(t, nodes, 0, a);
    assert t.txs[0..] == t.txs;
    TotalOfIds(t, nodes, order, Shares(nodes, a));
  }

  lemma {:induction false} AllCharged(t: Trace, nodes: Nodes, s: Shape<NodeId>, a: Address)
    requires Finished(t, nodes) && s == Tree(t, nodes)
    ensures forall id :: id in s.kids ==>
      Charges(s, Owns(nodes, a), Incomings(nodes, a), VisitTotals(nodes, a), Shares(nodes, a), id)
  {
    forall id | id in s.kids
      ensures Charges(s, Owns(nodes, a), Incomings(nodes, a), VisitTotals(nodes, a), Shares(nodes, a), id)
    {
      if id.OfTx? { TxCharges(t, nodes, id, a); } else { LogCharges(t, nodes, id, a); }
    }
  }

  /** The charges of the nodes add up to the shares of the transactions. */
  lemma {:induction false} ChargesAreShares(t: Trace, nodes: Nodes, s: Shape<NodeId>, root: NodeId, order: seq<NodeId>,
                                            a: Address)
    requires Finished(t, nodes) && t.txs != [] && root == OfTx(t.txs[|t.txs| - 1].hash)
    requires s == Tree(t, nodes) && IsTree(s, root) && order == QueueOrder(s, [root])
    requires Distinct(order) && (forall id :: id in order <==> id in nodes)
    ensures Weighed(order, VisitTotals(nodes, a))
    ensures Total(order, VisitTotals(nodes, a)) == FeeShare(t.txs, a) + LogShare(t.txs, a)
  {
    AllCharged(t, nodes, s, a);
    RootIsFree(t, nodes, a);
    ChargedToParent(s, root, Owns(nodes, a), Incomings(nodes, a), VisitTotals(nodes, a), Shares(nodes, a));
    SharesInOrder(t, nodes, order, a);
  }

  lemma {:induction false} RootIsFree(t: Trace, nodes: Nodes, a: Address)
    requires Finished(t, nodes) && t.txs != []
    ensures var root := OfTx(t.txs[|t.txs| - 1].hash); root in Incomings(nodes, a) && Incomings(nodes, a)[root] == 0
  {
    var n := |t.txs| - 1;
    NodeOf(t, nodes, n);
    BuiltNode(t, nodes, OfTx(t.txs[n].hash));
    LastIsRoot(t, n);
    assert TxOk(t, n);
  }

  // ----- when there is no result -----

  /** On a complete trace every child lookup finds a node, and the nodes are a tree. */
  lemma {:induction false} EveryChildIsFound(t: Trace) returns (nodes: Nodes)
    requires Complete(t) && t.txs != []
    ensures AddTxs(START, t.txs, 0).Some? && nodes == AddTxs(START, t.txs, 0).value.nodes
    ensures Finished(t, nodes) && IsTree(Tree(t, nodes), Root(t.txs))
    ensures Inside(Links(nodes)) && Inside(ReadLinks(nodes)) && NoCycleFrom(Links(nodes), Root(t.txs))
  {
    nodes := CompleteRanked(t);
    BuiltTree(t, nodes);
    LinksOf(t.txs);
    TreeHasNoCycle(t, nodes);
  }

  lemma {:induction false} CompleteRanked(t: Trace) returns (nodes: Nodes)
    requires Complete(t)
    ensures AddTxs(START, t.txs, 0).Some? && nodes == AddTxs(START, t.txs, 0).value.nodes
    ensures Finished(t, nodes) && Ranked(Tree(t, nodes))
  {
    BuildLinks(START, t, 0);
    nodes := AddTxs(START, t.txs, 0).value.nodes;
    CompleteIsPlaced(t);
    forall j | 0 <= j < |t.txs| ensures NoSelfLinks(t.txs[j]) {
      CompleteHasNoSelfLinks(t, j);
    }
    BuildRanked(t.txs, t.pos);
  }

  lemma {:induction false} TreeHasNoCycle(t: Trace, nodes: Nodes)
    requires t.txs != [] && Ranked(Tree(t, nodes)) && Root(t.txs) in nodes
    ensures NoCycleFrom(Links(nodes), Root(t.txs))
  {
    RankedHasNoCycle(Tree(t, nodes), Links(nodes), Root(t.txs));
  }

  /** The message names no sender, and one is read. */
  predicate NeedsSender(m: Message)
  {
    m.source.None? &&
      (m.value.Some? || m.opcode == Some(0x178d4519) ||
       (m.opcode == Some(0x0f8a7ea5) && m.body.Transfer?))
  }

  /** A message to nobody whose opcode is that of a jetton transfer. */
  predicate TransferToNobody(m: Message)
  {
    IsLog(m) && (m.opcode == Some(0x0f8a7ea5) || m.opcode == Some(0x178d4519))
  }

  /** The transaction has no fees, the message it consumes no sender, a message it emits no forward fee, or one to
      nobody calls itself a transfer. */
  predicate Lacking(tx: Tx)
    requires tx.inMsg.Some?
  {
    || tx.totalFees.None? || NeedsSender(tx.inMsg.value)
    || exists i | 0 <= i < |tx.outMsgs| :: tx.outMsgs[i].fwdFee.None? || TransferToNobody(tx.outMsgs[i])
  }

  /** A message consumed within the trace has a sender. */
  lemma {:induction false} OnlyRootHasNoSender(t: Trace, j: nat)
    requires Complete(t) && j < |t.txs| - 1
    ensures t.txs[j].inMsg.Some? && t.txs[j].inMsg.value.source.Some?
  {
    LastIsRoot(t, j);
    EmitterComesLater(t, j);
    ChildComesFirst(t, t.from[InHash(t.txs[j])].0, t.from[InHash(t.txs[j])].1);
    assert TxOk(t, j) && TxOk(t, t.from[InHash(t.txs[j])].0);
  }

  /** What leads to the node of a transaction, if anything does. */
  lemma {:induction false} TxEmission(t: Trace, nodes: Nodes, id: NodeId)
    requires Finished(t, nodes) && id in nodes && id.OfTx? && t.txs != []
    ensures nodes[id].msg.Some?
    ensures id == Root(t.txs) ==> Emission(nodes[id].msg.value, Prev(nodes, id)).None?
    ensures id != Root(t.txs) ==>
      var h := InHash(nodes[id].tx);
      && h in t.from && Emitted(t, h)
      && Emission(nodes[id].msg.value, Prev(nodes, id)) == Some(t.txs[t.from[h].0].outMsgs[t.from[h].1])
  {
    BuiltNode(t, nodes, id);
    OnlyRootHasNoPrev(t, nodes, id);
    if id != Root(t.txs) {
      var h := InHash(nodes[id].tx);
      EmitterComesLater(t, t.pos[id.tx]);
      ChildEmission(t, nodes, t.from[h].0, t.from[h].1);
      ChildComesFirst(t, t.from[h].0, t.from[h].1);
      assert TxOk(t, t.pos[id.tx]);
    }
  }

  lemma {:induction false} TxVisitable(t: Trace, nodes: Nodes, id: NodeId)
    requires Finished(t, nodes) && id in nodes && id.OfTx? && t.txs != []
    ensures nodes[id].msg.Some?
    ensures Visitable(nodes[id], Prev(nodes, id)) <==>
      var m, out := nodes[id].msg.value, Emission(nodes[id].msg.value, Prev(nodes, id));
      && (out.Some? ==> out.value.fwdFee.Some?) && nodes[id].tx.totalFees.Some?
      && (m.source.None? ==> m.value.None? && m.opcode != Some(0x178d4519))
  {
    BuiltNode(t, nodes, id);
    TxEmission(t, nodes, id);
    if id != Root(t.txs) {
      LastIsRoot(t, t.pos[id.tx]);
      OnlyRootHasNoSender(t, t.pos[id.tx]);
    }
  }

  lemma {:induction false} LogVisitable(t: Trace, nodes: Nodes, j: nat, i: nat)
    requires Finished(t, nodes) && j < |t.txs| && i < |t.txs[j].outMsgs| && IsLog(t.txs[j].outMsgs[i])
    ensures var id, m := OfLog(t.txs[j].hash, i), t.txs[j].outMsgs[i];
      id in nodes && (id in Broken(nodes) <==> m.fwdFee.None? || TransferToNobody(m))
  {
    LogOf(t, nodes, j, i);
    ChildEmission(t, nodes, j, i);
  }

  /** A message without a forward fee breaks the node that it leads to. */
  lemma {:induction false} UnpricedBreaks(t: Trace, nodes: Nodes, j: nat, i: nat)
    requires Finished(t, nodes) && j < |t.txs| && i < |t.txs[j].outMsgs| && t.txs[j].outMsgs[i].fwdFee.None?
    ensures ChildAt(t, t.txs[j], i) in Broken(nodes)
  {
    ChildEmission(t, nodes, j, i);
  }

  lemma {:induction false} LackingBreaks(t: Trace, nodes: Nodes, j: nat)
    requires Finished(t, nodes) && j < |t.txs| && t.txs[j].inMsg.Some? && Lacking(t.txs[j])
    ensures Broken(nodes) != {} || Root(t.txs) in Stuck(nodes)
  {
    var tx, id := t.txs[j], OfTx(t.txs[j].hash);
    NodeOf(t, nodes, j);
    BuiltNode(t, nodes, id);
    if i :| 0 <= i < |tx.outMsgs| && (tx.outMsgs[i].fwdFee.None? || TransferToNobody(tx.outMsgs[i])) {
      if tx.outMsgs[i].fwdFee.None? { UnpricedBreaks(t, nodes, j, i); } else { LogVisitable(t, nodes, j, i); }
    } else {
      TxVisitable(t, nodes, id);
      if j < |t.txs| - 1 { OnlyRootHasNoSender(t, j); }
      assert id in Broken(nodes) || id in Stuck(nodes);
    }
  }

  /** Some transaction of the trace is lacking. */
  ghost predicate SomeLacking(t: Trace)
  {
    exists j :: 0 <= j < |t.txs| && t.txs[j].inMsg.Some? && Lacking(t.txs[j])
  }

  lemma {:induction false} BrokenLacks(t: Trace, nodes: Nodes, id: NodeId)
    requires Finished(t, nodes) && t.txs != [] && id in Broken(nodes)
    ensures SomeLacking(t)
  {
    if id.OfLog? {
      BuiltLog(t, nodes, id);
      var j := t.pos[id.tx];
      LogVisitable(t, nodes, j, id.index);
      assert TxOk(t, j);
      assert Lacking(t.txs[j]);
    } else {
      BuiltNode(t, nodes, id);
      TxVisitable(t, nodes, id);
      TxEmission(t, nodes, id);
      var out := Emission(nodes[id].msg.value, Prev(nodes, id));
      if out.Some? && out.value.fwdFee.None? {
        var e := t.from[InHash(nodes[id].tx)].0;
        assert TxOk(t, e);
        assert Lacking(t.txs[e]);
      } else {
        assert Lacking(t.txs[t.pos[id.tx]]);
      }
    }
  }

  /** Where the first traversal meets every field, the second can only miss the root's sender. */
  lemma {:induction false} OnlyRootIsStuck(t: Trace, nodes: Nodes, id: NodeId)
    requires Finished(t, nodes) && t.txs != [] && id in Stuck(nodes) && id !in Broken(nodes)
    ensures id == Root(t.txs) && SomeLacking(t)
  {
    if id.OfLog? {
      BuiltLog(t, nodes, id);
      assert false;
    } else {
      BuiltNode(t, nodes, id);
      if t.pos[id.tx] < |t.txs| - 1 { OnlyRootHasNoSender(t, t.pos[id.tx]); }
      assert Lacking(t.txs[t.pos[id.tx]]);
    }
  }

  /** The traversal of a tree takes every node, so it runs dry only if none is bad. */
  lemma {:induction false} DryTakesAll(nodes: Nodes, s: Shape<NodeId>, root: NodeId, bad: set<NodeId>, id: NodeId)
    requires Inside(Links(nodes)) && s.kids == Links(nodes) && IsTree(s, root)
    requires RunsDry(Links(nodes), bad, root) && id in nodes
    ensures Order(Links(nodes), bad, root) == QueueOrder(s, [root]) && id !in bad
  {
    OrderByRank(Links(nodes), bad, s, root);
    QueueOrderOfTree(s, root);
    var order := QueueOrder(s, [root]);
    assert id in multiset(s.kids.Keys);
    assert id in multiset(order);
    var n: nat :| Loop(Links(nodes), bad, [root], n) == Going([]);
    EndIs(Links(nodes), bad, root, n);
    TakenInside(Links(nodes), bad, [root], n);
    var i :| 0 <= i < |order| && order[i] == id;
    assert Taken(Links(nodes), bad, [root], n)[i] == id;
  }

  /** On a complete trace the calculation fails if and only if a transaction has no fees, a message that is emitted no
      forward fee, a message to nobody the opcode of a transfer, or the message from outside no sender where one is
      read. */
  lemma {:induction false} MissingExactly(t: Trace, nodes: Nodes)
    requires Complete(t) && t.txs != []
    requires AddTxs(START, t.txs, 0).Some? && nodes == AddTxs(START, t.txs, 0).value.nodes
    ensures FieldMissing(nodes, Root(t.txs)) <==> SomeLacking(t)
  {
    var built := EveryChildIsFound(t);
    if Broken(nodes) != {} {
      var id :| id in Broken(nodes);
      BrokenLacks(t, nodes, id);
      BrokenIsMet(t, nodes, id);
    } else {
      StuckExactly(t, nodes);
    }
  }

  lemma {:induction false} StuckExactly(t: Trace, nodes: Nodes)
    requires Finished(t, nodes) && t.txs != [] && Broken(nodes) == {}
    ensures BadAhead(ReadLinks(nodes), Stuck(nodes), Root(t.txs)) <==> SomeLacking(t)
  {
    var root := Root(t.txs);
    if BadAhead(ReadLinks(nodes), Stuck(nodes), root) {
      var id :| Reaches(ReadLinks(nodes), root, id) && id in Stuck(nodes);
      OnlyRootIsStuck(t, nodes, id);
    }
    if SomeLacking(t) {
      var j :| 0 <= j < |t.txs| && t.txs[j].inMsg.Some? && Lacking(t.txs[j]);
      LackingBreaks(t, nodes, j);
      assert IsWalk(ReadLinks(nodes), [root], root, root);
    }
  }

  lemma {:induction false} BrokenIsMet(t: Trace, nodes: Nodes, id: NodeId)
    requires Finished(t, nodes) && t.txs != [] && IsTree(Tree(t, nodes), Root(t.txs)) && id in Broken(nodes)
    requires Inside(Links(nodes)) && NoCycleFrom(Links(nodes), Root(t.txs))
    ensures BadAhead(Links(nodes), Broken(nodes), Root(t.txs))
  {
    var root := Root(t.txs);
    NodeOf(t, nodes, |t.txs| - 1);
    DryExactly(Links(nodes), Broken(nodes), root);
    if RunsDry(Links(nodes), Broken(nodes), root) {
      DryTakesAll(nodes, Tree(t, nodes), root, Broken(nodes), id);
    }
  }

  // ----- the theorem -----

  /** A transfer that the transaction receives can be read. */
  ghost predicate Readable(tx: Tx)
  {
    tx.inMsg.Some? && tx.inMsg.value.opcode == Some(0x0f8a7ea5) ==>
      tx.inMsg.value.body.NoBody? || (tx.inMsg.value.body.Transfer? && tx.inMsg.value.body.whole)
  }

  /** Where nothing is missing and every transfer can be read, the second traversal follows every link. */
  lemma {:induction false} NothingUnread(t: Trace, nodes: Nodes)
    requires Finished(t, nodes) && Broken(nodes) == {} && forall j :: 0 <= j < |t.txs| ==> Readable(t.txs[j])
    ensures ReadLinks(nodes) == Links(nodes)
    ensures forall id :: id in nodes ==> !Unread(nodes[id])
    ensures forall id :: id in nodes && id.OfLog? ==> !IsTransfer(nodes[id])
  {
    forall id | id in nodes ensures !Unread(nodes[id]) && (id.OfLog? ==> !IsTransfer(nodes[id])) {
      if id.OfTx? {
        BuiltNode(t, nodes, id);
      } else {
        BuiltLog(t, nodes, id);
        LogVisitable(t, nodes, t.pos[id.tx], id.index);
      }
    }
  }

  /** What a node has after both visits. */
  ghost function NodeAmounts(nodes: Nodes, wallets: Wallets, i: Item): (r: map<NodeId, int>)
  {
    map id | id in nodes && nodes[id].msg.Some? ::
      Amount(Moved(Visit(EMPTY, nodes[id], Prev(nodes, id)), nodes[id], wallets), i)
  }

  /** The node has what one visit adds. */
  ghost predicate HasVisit(nodes: Nodes, l: Ledger, id: NodeId)
    requires id in nodes
  {
    nodes[id].msg.Some? && id in l && l[id] == Visit(EMPTY, nodes[id], Prev(nodes, id))
  }

  lemma {:induction false} VisitedOnce(t: Trace, nodes: Nodes, s: Shape<NodeId>, root: NodeId, order: seq<NodeId>)
    requires Finished(t, nodes) && s == Tree(t, nodes) && IsTree(s, root)
    requires order == QueueOrder(s, [root]) && Known(nodes, order)
    ensures Distinct(order) && (forall id :: id in order <==> id in nodes)
    ensures forall id :: id in nodes ==> HasVisit(nodes, FirstTurns(nodes, map[], order), id)
  {
    QueueOrderOfTree(s, root);
    assert s.kids.Keys == nodes.Keys;
    forall id ensures id in order <==> id in nodes {
      assert id in multiset(order) <==> id in multiset(nodes.Keys);
    }
    forall id | id in nodes ensures HasVisit(nodes, FirstTurns(nodes, map[], order), id) {
      if id.OfTx? { BuiltNode(t, nodes, id); } else { BuiltLog(t, nodes, id); }
      FirstTurnsOnce(nodes, map[], order, id);
    }
  }

  /** On a complete trace the total is the sum of what the nodes have. */
  lemma {:induction false} TotalOfNodes(t: Trace, wallets: Wallets, l: Ledger, total: Changes, i: Item)
    returns (nodes: Nodes, order: seq<NodeId>)
    requires Complete(t) && (forall j :: 0 <= j < |t.txs| ==> Readable(t.txs[j]))
    requires IsResult(t.txs, wallets, l, total)
    ensures nodes == AddTxs(START, t.txs, 0).value.nodes && Finished(t, nodes)
    ensures Broken(nodes) == {} && Stuck(nodes) == {}
    ensures IsTree(Tree(t, nodes), Root(t.txs)) && order == QueueOrder(Tree(t, nodes), [Root(t.txs)])
    ensures Distinct(order) && (forall id :: id in order <==> id in nodes)
    ensures Weighed(order, NodeAmounts(nodes, wallets, i))
    ensures Amount(total, i) == Total(order, NodeAmounts(nodes, wallets, i))
  {
    nodes := EveryChildIsFound(t);
    order := QueueOrder(Tree(t, nodes), [Root(t.txs)]);
    TraversedInOrder(t, nodes, wallets, l, total);
    VisitedOnce(t, nodes, Tree(t, nodes), Root(t.txs), order);
    OrderTotals(t, nodes, wallets, order, i);
  }

  lemma {:induction false} OrderTotals(t: Trace, nodes: Nodes, wallets: Wallets, order: seq<NodeId>, i: Item)
    requires Finished(t, nodes) && Broken(nodes) == {} && (forall j :: 0 <= j < |t.txs| ==> Readable(t.txs[j]))
    requires Known(nodes, order) && Distinct(order)
    requires forall id :: id in nodes ==> HasVisit(nodes, FirstTurns(nodes, map[], order), id)
    ensures Weighed(order, NodeAmounts(nodes, wallets, i))
    ensures Amount(SecondTurns(nodes, wallets, FirstTurns(nodes, map[], order), EMPTY, order).1, i)
      == Total(order, NodeAmounts(nodes, wallets, i))
  {
    NothingUnread(t, nodes);
    AllWeigh(nodes, wallets, order, i);
    SecondTotals(nodes, wallets, FirstTurns(nodes, map[], order), EMPTY, order, NodeAmounts(nodes, wallets, i), i);
  }

  /** Both traversals of a complete trace take the nodes in the queue order of the tree. */
  lemma {:induction false} TraversedInOrder(t: Trace, nodes: Nodes, wallets: Wallets, l: Ledger, total: Changes)
    requires Finished(t, nodes) && t.txs != [] && IsTree(Tree(t, nodes), Root(t.txs))
    requires (forall j :: 0 <= j < |t.txs| ==> Readable(t.txs[j])) && Traversed(nodes, Root(t.txs), wallets, l, total)
    ensures Broken(nodes) == {} && Stuck(nodes) == {}
    ensures var order := QueueOrder(Tree(t, nodes), [Root(t.txs)]);
      Known(nodes, order) && (l, total) == SecondTurns(nodes, wallets, FirstTurns(nodes, map[], order), EMPTY, order)
  {
    var s, root := Tree(t, nodes), Root(t.txs);
    forall id | id in nodes ensures id !in Broken(nodes) {
      DryTakesAll(nodes, s, root, Broken(nodes), id);
    }
    NothingUnread(t, nodes);
    forall id | id in nodes ensures id !in Stuck(nodes) {
      DryTakesAll(nodes, s, root, Stuck(nodes), id);
    }
    NodeOf(t, nodes, |t.txs| - 1);
    DryTakesAll(nodes, s, root, Broken(nodes), root);
    DryTakesAll(nodes, s, root, Stuck(nodes), root);
  }

  lemma {:induction false} AllWeigh(nodes: Nodes, wallets: Wallets, order: seq<NodeId>, i: Item)
    requires Known(nodes, order) && forall id :: id in nodes ==> !Unread(nodes[id])
    requires forall id :: id in nodes ==> HasVisit(nodes, FirstTurns(nodes, map[], order), id)
    ensures Weighed(order, NodeAmounts(nodes, wallets, i))
    ensures forall k :: 0 <= k < |order| ==>
      Weighs(nodes, wallets, FirstTurns(nodes, map[], order), NodeAmounts(nodes, wallets, i), i, order[k])
  {
  }

  lemma {:induction false} FeesUnmoved(nodes: Nodes, wallets: Wallets, a: Address)
    ensures NodeAmounts(nodes, wallets, FeeOf(a)) == VisitTotals(nodes, a)
  {
  }

  /** The fees of a complete trace: every account pays the total fees of its transactions and the forward fees of the
      messages it sent, and once more the forward fees of those that it sent to nobody. */
  lemma {:induction false} FeesExactly(t: Trace, wallets: Wallets, l: Ledger, total: Changes, a: Address)
    requires Complete(t) && (forall j :: 0 <= j < |t.txs| ==> Readable(t.txs[j]))
    requires IsResult(t.txs, wallets, l, total)
    ensures Get(total.fees, a) == FeeShare(t.txs, a) + LogShare(t.txs, a)
  {
    var nodes, order := TotalOfNodes(t, wallets, l, total, FeeOf(a));
    FeesUnmoved(nodes, wallets, a);
    ChargesAreShares(t, nodes, Tree(t, nodes), Root(t.txs), order, a);
  }

  /** No message to nobody costs anything. */
  ghost predicate LogsAreFree(txs: seq<Tx>)
  {
    forall j, i :: 0 <= j < |txs| && 0 <= i < |txs[j].outMsgs| && IsLog(txs[j].outMsgs[i]) ==>
      OrZero(txs[j].outMsgs[i].fwdFee) == 0
  }

  ghost predicate NoNegativeFee(ms: seq<Message>)
  {
    forall i :: 0 <= i < |ms| ==> OrZero(ms[i].fwdFee) >= 0
  }

  lemma {:induction false} LogForwardsAre(ms: seq<Message>, a: Address)
    requires NoNegativeFee(ms)
    ensures LogForwards(ms, a) >= 0
    ensures LogForwards(ms, a) == 0 <==>
      forall i :: 0 <= i < |ms| && IsLog(ms[i]) && ms[i].source == Some(a) ==> OrZero(ms[i].fwdFee) == 0
  {
    if ms != [] {
      var n := |ms| - 1;
      LogForwardsAre(ms[..n], a);
      assert forall i :: 0 <= i < n ==> ms[..n][i] == ms[i];
    }
  }

  lemma {:induction false} LogShareAre(txs: seq<Tx>, a: Address)
    requires forall j :: 0 <= j < |txs| ==> NoNegativeFee(txs[j].outMsgs)
    ensures LogShare(txs, a) >= 0
    ensures LogShare(txs, a) == 0 <==> forall j :: 0 <= j < |txs| ==> LogForwards(txs[j].outMsgs, a) == 0
  {
    if txs != [] {
      LogForwardsAre(txs[0].outMsgs, a);
      LogShareAre(txs[1..], a);
      assert forall j :: 0 < j < |txs| ==> txs[j] == txs[1..][j - 1];
    }
  }

  lemma {:induction false} FreeHasNoShare(txs: seq<Tx>, a: Address)
    requires (forall j :: 0 <= j < |txs| ==> NoNegativeFee(txs[j].outMsgs)) && LogsAreFree(txs)
    ensures LogShare(txs, a) == 0
  {
    LogShareAre(txs, a);
    forall j | 0 <= j < |txs| ensures LogForwards(txs[j].outMsgs, a) == 0 {
      LogForwardsAre(txs[j].outMsgs, a);
    }
  }

  lemma {:induction false} NoShareIsFree(txs: seq<Tx>, j: nat, i: nat)
    requires forall j :: 0 <= j < |txs| ==> Whole(txs[j]) && NoNegativeFee(txs[j].outMsgs)
    requires j < |txs| && i < |txs[j].outMsgs| && IsLog(txs[j].outMsgs[i]) && LogShare(txs, txs[j].account) == 0
    ensures OrZero(txs[j].outMsgs[i].fwdFee) == 0
  {
    LogShareAre(txs, txs[j].account);
    LogForwardsAre(txs[j].outMsgs, txs[j].account);
  }

  lemma {:induction false} CompleteIsWhole(t: Trace)
    requires Complete(t)
    ensures forall j :: 0 <= j < |t.txs| ==> Whole(t.txs[j])
  {
    forall j | 0 <= j < |t.txs| ensures Whole(t.txs[j]) {
      assert TxOk(t, j);
    }
  }

  /** Every account pays what it owes. */
  ghost predicate CountedOnce(fees: Amounts, txs: seq<Tx>)
  {
    forall a :: Get(fees, a) == FeeShare(txs, a)
  }

  /** Every fee is counted once if and only if every message to nobody is free. */
  lemma {:induction false} FeesOnceExactly(t: Trace, wallets: Wallets, l: Ledger, total: Changes)
    requires Complete(t) && (forall j :: 0 <= j < |t.txs| ==> Readable(t.txs[j]) && NoNegativeFee(t.txs[j].outMsgs))
    requires IsResult(t.txs, wallets, l, total)
    ensures CountedOnce(total.fees, t.txs) <==> LogsAreFree(t.txs)
  {
    CompleteIsWhole(t);
    forall a ensures Get(total.fees, a) == FeeShare(t.txs, a) + LogShare(t.txs, a) {
      FeesExactly(t, wallets, l, total, a);
    }
    OnceIfFree(t.txs, total.fees);
  }

  lemma {:induction false} OnceIfFree(txs: seq<Tx>, fees: Amounts)
    requires forall j :: 0 <= j < |txs| ==> Whole(txs[j]) && NoNegativeFee(txs[j].outMsgs)
    requires forall a :: Get(fees, a) == FeeShare(txs, a) + LogShare(txs, a)
    ensures CountedOnce(fees, txs) <==> LogsAreFree(txs)
  {
    if LogsAreFree(txs) {
      forall a ensures Get(fees, a) == FeeShare(txs, a) {
        FreeHasNoShare(txs, a);
      }
    }
    if CountedOnce(fees, txs) {
      forall j, i | 0 <= j < |txs| && 0 <= i < |txs[j].outMsgs| && IsLog(txs[j].outMsgs[i])
        ensures OrZero(txs[j].outMsgs[i].fwdFee) == 0
      {
        assert Get(fees, txs[j].account) == FeeShare(txs, txs[j].account);
        NoShareIsFree(txs, j, i);
      }
    }
  }

  /** As the parser leaves it: a message to nobody has no forward fee. */
  ghost predicate AsParsed(txs: seq<Tx>)
  {
    forall j, i :: 0 <= j < |txs| && 0 <= i < |txs[j].outMsgs| && IsLog(txs[j].outMsgs[i]) ==>
      txs[j].outMsgs[i].fwdFee.None?
  }

  /** On parsed traces a result means that there is no message to nobody, and that every fee is counted once. */
  lemma {:induction false} ParsedFeesOnce(t: Trace, wallets: Wallets, l: Ledger, total: Changes)
    requires Complete(t) && AsParsed(t.txs) && (forall j :: 0 <= j < |t.txs| ==> Readable(t.txs[j]))
    requires IsResult(t.txs, wallets, l, total)
    ensures forall j, i :: 0 <= j < |t.txs| && 0 <= i < |t.txs[j].outMsgs| ==> !IsLog(t.txs[j].outMsgs[i])
    ensures CountedOnce(total.fees, t.txs)
  {
    ResultHasNoLogs(t, wallets, l, total);
    forall a ensures Get(total.fees, a) == FeeShare(t.txs, a) {
      FeesExactly(t, wallets, l, total, a);
      NoLogsNoShare(t.txs, a);
    }
  }

  lemma {:induction false} ResultHasNoLogs(t: Trace, wallets: Wallets, l: Ledger, total: Changes)
    requires Complete(t) && AsParsed(t.txs) && IsResult(t.txs, wallets, l, total)
    ensures forall j, i :: 0 <= j < |t.txs| && 0 <= i < |t.txs[j].outMsgs| ==> !IsLog(t.txs[j].outMsgs[i])
  {
    var nodes := EveryChildIsFound(t);
    forall j, i | 0 <= j < |t.txs| && 0 <= i < |t.txs[j].outMsgs| ensures !IsLog(t.txs[j].outMsgs[i]) {
      if IsLog(t.txs[j].outMsgs[i]) {
        LogVisitable(t, nodes, j, i);
        DryTakesAll(nodes, Tree(t, nodes), Root(t.txs), Broken(nodes), OfLog(t.txs[j].hash, i));
      }
    }
  }

  lemma {:induction false} NoLogsNoForwards(ms: seq<Message>, a: Address)
    requires forall i :: 0 <= i < |ms| ==> !IsLog(ms[i])
    ensures LogForwards(ms, a) == 0
  {
    if ms != [] { NoLogsNoForwards(ms[..|ms| - 1], a); }
  }

  lemma {:induction false} NoLogsNoShare(txs: seq<Tx>, a: Address)
    requires forall j, i :: 0 <= j < |txs| && 0 <= i < |txs[j].outMsgs| ==> !IsLog(txs[j].outMsgs[i])
    ensures LogShare(txs, a) == 0
  {
    if txs != [] {
      NoLogsNoForwards(txs[0].outMsgs, a);
      forall j, i | 0 <= j < |txs[1..]| && 0 <= i < |txs[1..][j].outMsgs| ensures !IsLog(txs[1..][j].outMsgs[i]) {
        assert !IsLog(txs[j + 1].outMsgs[i]);
      }
      NoLogsNoShare(txs[1..], a);
    }
  }

  // ----- a trace with a message to nobody -----

  /** One transaction that consumes message 1 and sends message 2 to nobody, with or without a forward fee. */
  function LogTx(account: Address, fee: Option<int>): (tx: Tx)
  {
    Tx(1, account, Some(0), 1, Some(Message(1, None, Some(account), None, None, None, NoBody)),
       [Message(2, Some(account), None, None, None, fee, NoBody)])
  }

  ghost function LogTrace(account: Address, fee: Option<int>): (t: Trace)
  {
    Trace([LogTx(account, fee)], map[1 := 0], map[1 := 0], map[2 := (0, 0)])
  }

  lemma {:induction false} LogTraceComplete(account: Address, fee: Option<int>)
    ensures Complete(LogTrace(account, fee)) && Readable(LogTx(account, fee))
  {
    var t := LogTrace(account, fee);
    assert t.txs[0] == LogTx(account, fee);
    forall j: nat ensures TxOk(t, j) {
      if j == 0 { assert Sent(t, 0, 0); }
    }
    forall h: Hash ensures HashOk(t, h) {
    }
  }

  /** As the parser leaves it, without a forward fee, there is no result. */
  lemma {:induction false} LogWithoutFeeFails(account: Address)
    ensures AsParsed([LogTx(account, None)]) && AddTxs(START, [LogTx(account, None)], 0).Some?
    ensures FieldMissing(AddTxs(START, [LogTx(account, None)], 0).value.nodes, Root([LogTx(account, None)]))
  {
    var t := LogTrace(account, None);
    LogTraceComplete(account, None);
    var nodes := EveryChildIsFound(t);
    assert t.txs[0] == LogTx(account, None);
    assert t.txs[0].outMsgs[0].fwdFee.None?;
    assert Lacking(t.txs[0]);
    MissingExactly(t, nodes);
  }

  lemma {:induction false} LogTxShares(account: Address, fee: int)
    ensures FeeShare([LogTx(account, Some(fee))], account) == fee
    ensures LogShare([LogTx(account, Some(fee))], account) == fee
  {
    var tx := LogTx(account, Some(fee));
    var outs := tx.outMsgs;
    assert [tx][1..] == [] && outs[1..] == [] && outs[..0] == [];
    assert Forwards(outs[1..], account) == 0 && Forwards(outs, account) == fee;
    assert LogForwards(outs[..0], account) == 0 && LogForwards(outs, account) == fee;
  }

  /** With one, its account owes the fee and is charged it twice. */
  lemma {:induction false} LogFeeIsChargedTwice(account: Address, fee: int, wallets: Wallets, l: Ledger, total: Changes)
    requires IsResult([LogTx(account, Some(fee))], wallets, l, total)
    ensures FeeShare([LogTx(account, Some(fee))], account) == fee && Get(total.fees, account) == 2 * fee
  {
    LogTraceComplete(account, Some(fee));
    LogTxShares(account, fee);
    FeesExactly(LogTrace(account, Some(fee)), wallets, l, total, account);
  }

  // ----- values and jettons -----

  /** The jetton of the wallet with this address, and the empty address if no such wallet is known. */
  ghost predicate IsJettonOf(wallets: Wallets, wallet: Option<Address>, jetton: Address)
  {
    if wallet.Some? && wallet.value in wallets then wallets[wallet.value].master == jetton else jetton == NO_ADDRESS
  }

  /** The account is known to own a wallet of the jetton. */
  ghost predicate HasWallet(wallets: Wallets, who: Address, jetton: Address)
  {
    exists w :: w in wallets && wallets[w].owner == who && wallets[w].master == jetton
  }

  /** The account stands for itself if it has a wallet of the jetton, and otherwise the empty address stands for it. */
  ghost predicate StandsFor(wallets: Wallets, o: Address, who: Option<Address>, jetton: Address)
  {
    who.Some? && if HasWallet(wallets, who.value, jetton) then o == who.value else o == NO_ADDRESS
  }

  /** What a transaction's in-message changes: the value moves from its source to its destination; a transfer moves
      the amount of the jetton of the wallet that it is addressed to, from its source to the receiver that its body
      names. */
  ghost function Effect(tx: Tx, wallets: Wallets, i: Item): (r: int)
    requires tx.inMsg.Some?
  {
    var m := tx.inMsg.value;
    match i
    case FeeOf(_) => 0
    case ValueOf(a) =>
      if m.value.None? then 0
      else (if m.destination == Some(a) then m.value.value else 0) - (if m.source == Some(a) then m.value.value else 0)
    case JettonOf(o, j) =>
      if m.opcode != Some(0x0f8a7ea5) || !m.body.Transfer? || !IsJettonOf(wallets, m.destination, j) then 0
      else
        (if StandsFor(wallets, o, Some(m.body.to), j) then m.body.amount else 0)
        - (if StandsFor(wallets, o, m.source, j) then m.body.amount else 0)
  }

  ghost function Effects(txs: seq<Tx>, wallets: Wallets, i: Item): (r: int)
  {
    if txs == [] then 0
    else (if txs[0].inMsg.Some? then Effect(txs[0], wallets, i) else 0) + Effects(txs[1..], wallets, i)
  }

  lemma {:induction false} OwnerStands(wallets: Wallets, master: Address, who: Address, o: Address)
    ensures Owner(wallets, master, who) == o <==> StandsFor(wallets, o, Some(who), master)
  {
    if HasWallet(wallets, who, master) {
      var w :| w in wallets && wallets[w].owner == who && wallets[w].master == master;
      assert wallets[w] == Wallet(who, master);
    }
  }

  lemma {:induction false} NodeEffect(node: Node, prev: Option<Node>, wallets: Wallets, i: Item)
    requires node.msg.Some? && node.msg == node.tx.inMsg && node.isIn && !i.FeeOf?
    requires Visitable(node, prev) && Movable(node)
    ensures Amount(Moved(Visit(EMPTY, node, prev), node, wallets), i) == Effect(node.tx, wallets, i)
  {
    var c := Visit(EMPTY, node, prev);
    assert c.jettons == EMPTY.jettons;
    if i.ValueOf? {
      assert Moved(c, node, wallets).value == c.value;
    } else {
      JettonEffect(c, node, wallets, i);
    }
  }

  lemma {:induction false} JettonEffect(c: Changes, node: Node, wallets: Wallets, i: Item)
    requires c.jettons == EMPTY.jettons && node.msg.Some? && node.msg == node.tx.inMsg && Movable(node) && i.JettonOf?
    ensures Amount(Moved(c, node, wallets), i) == Effect(node.tx, wallets, i)
  {
    var m := node.msg.value;
    if IsTransfer(node) && m.body.Transfer? {
      var master := Master(wallets, m.destination.value);
      assert IsJettonOf(wallets, m.destination, i.master) <==> master == i.master;
      OwnerStands(wallets, master, m.source.value, i.owner);
      OwnerStands(wallets, master, m.body.to, i.owner);
    }
  }

  /** A message to nobody moves nothing. */
  lemma {:induction false} LogsMoveNothing(t: Trace, nodes: Nodes, wallets: Wallets, i: Item)
    requires Finished(t, nodes) && Broken(nodes) == {} && !i.FeeOf?
    requires forall j :: 0 <= j < |t.txs| ==> Readable(t.txs[j])
    ensures forall id :: id in nodes && id in NodeAmounts(nodes, wallets, i) && id.OfLog? ==>
      NodeAmounts(nodes, wallets, i)[id] == 0
  {
    NothingUnread(t, nodes);
    forall id | id in nodes && id.OfLog?
      ensures id in NodeAmounts(nodes, wallets, i) && NodeAmounts(nodes, wallets, i)[id] == 0
    {
      BuiltLog(t, nodes, id);
    }
  }

  lemma {:induction false} EffectsTotal(t: Trace, nodes: Nodes, wallets: Wallets, i: Item, n: nat)
    requires Finished(t, nodes) && n <= |t.txs| && !i.FeeOf? && Broken(nodes) == {} && Stuck(nodes) == {}
    ensures Weighed(Ids(t.txs[n..]), NodeAmounts(nodes, wallets, i))
    ensures Total(Ids(t.txs[n..]), NodeAmounts(nodes, wallets, i)) == Effects(t.txs[n..], wallets, i)
    decreases |t.txs| - n
  {
    if n < |t.txs| {
      var id := OfTx(t.txs[n].hash);
      EffectsTotal(t, nodes, wallets, i, n + 1);
      NodeOf(t, nodes, n);
      BuiltNode(t, nodes, id);
      assert id !in Broken(nodes) && id !in Stuck(nodes);
      NodeEffect(nodes[id], Prev(nodes, id), wallets, i);
      assert t.txs[n..][1..] == t.txs[n + 1..];
      assert Ids(t.txs[n..])[1..] == Ids(t.txs[n + 1..]);
    }
  }

  /** The values and jettons of a complete trace: every account gains what its messages bring and loses what it sends,
      and every owner gains and loses what the transfers say, each once. */
  lemma {:induction false} MovesOnce(t: Trace, wallets: Wallets, l: Ledger, total: Changes, i: Item)
    requires Complete(t) && (forall j :: 0 <= j < |t.txs| ==> Readable(t.txs[j])) && !i.FeeOf?
    requires IsResult(t.txs, wallets, l, total)
    ensures Amount(total, i) == Effects(t.txs, wallets, i)
  {
    var nodes, order := TotalOfNodes(t, wallets, l, total, i);
    EffectsTotal(t, nodes, wallets, i, 0);
    assert t.txs[0..] == t.txs;
    LogsMoveNothing(t, nodes, wallets, i);
    TotalOfIds(t, nodes, order, NodeAmounts(nodes, wallets, i));
  }
}
