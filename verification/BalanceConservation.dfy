/** Nothing is created or lost: over both traversals of any trace the changes stay balanced. */
module BalanceConservation {
  import opened Basics
  import opened Cycles
  import opened QueueLoops
  import opened Sums
  import opened Balances
  import opened BalanceTrace

  ghost predicate AllBalanced(l: Ledger)
  {
    forall id :: id in l ==> Balanced(l[id])
  }

  lemma {:induction false} VisitBalanced(c: Changes, node: Node, prev: Option<Node>)
    requires Balanced(c) && node.msg.Some?
    ensures Balanced(Visit(c, node, prev))
  {
    var m := node.msg.value;
    if node.isIn && m.value.Some? {
      SumPlus(c.value, Or(m.source), -m.value.value);
      SumPlus(Plus(c.value, Or(m.source), -m.value.value), Or(m.destination), m.value.value);
    }
  }

  lemma {:induction false} PlusMakes(j: Holdings, k: Holdings, owner: Address, master: Address, v: int, m: Address)
    requires k == PlusJetton(j, owner, master, v)
    ensures Sum(OfMaster(k, m)) == Sum(OfMaster(j, m)) + if m == master then v else 0
  {
    OfMasterPlus(j, owner, master, v, m);
    SumPlus(OfMaster(j, m), owner, v);
  }

  lemma {:induction false} TransferMakesNone(j: Holdings, k: Holdings, l: Holdings, sender: Address, receiver: Address,
                                             master: Address, v: int)
    requires NoneMade(j) && k == PlusJetton(j, sender, master, -v) && l == PlusJetton(k, receiver, master, v)
    ensures NoneMade(l)
  {
    forall m ensures Sum(OfMaster(l, m)) == 0 {
      PlusMakes(j, k, sender, master, -v, m);
      PlusMakes(k, l, receiver, master, v, m);
    }
  }

  lemma {:induction false} MovedBalanced(c: Changes, node: Node, wallets: Wallets)
    requires Balanced(c)
    ensures Balanced(Moved(c, node, wallets))
  {
    if IsTransfer(node) && node.msg.value.body.Transfer? {
      var m := node.msg.value;
      var master := Master(wallets, Or(m.destination));
      var sender, receiver := Owner(wallets, master, Or(m.source)), Owner(wallets, master, m.body.to);
      var sent := PlusJetton(c.jettons, sender, master, -m.body.amount);
      var after := PlusJetton(sent, receiver, master, m.body.amount);
      TransferMakesNone(c.jettons, sent, after, sender, receiver, master, m.body.amount);
      assert Moved(c, node, wallets) == c.(jettons := after);
    }
  }

  lemma {:induction false} FirstTurnsBalanced(nodes: Nodes, l: Ledger, order: seq<NodeId>)
    requires Known(nodes, order) && AllBalanced(l)
    ensures AllBalanced(FirstTurns(nodes, l, order))
    decreases |order|
  {
    if order != [] {
      var id := order[0];
      EmptyBalanced();
      if nodes[id].msg.Some? { VisitBalanced(Entry(l, id), nodes[id], Prev(nodes, id)); }
      FirstTurnsBalanced(nodes, FirstTurn(nodes, l, id), order[1..]);
    }
  }

  lemma {:induction false} SecondTurnsBalanced(nodes: Nodes, wallets: Wallets, l: Ledger, total: Changes,
                                               order: seq<NodeId>)
    requires Known(nodes, order) && AllBalanced(l) && Balanced(total)
    ensures var (m, t) := SecondTurns(nodes, wallets, l, total, order); AllBalanced(m) && Balanced(t)
    decreases |order|
  {
    if order != [] {
      var id := order[0];
      EmptyBalanced();
      MovedBalanced(Entry(l, id), nodes[id], wallets);
      var (m, t) := SecondTurn(nodes, wallets, l, total, id);
      if id in m { MergeBalanced(total, m[id]); }
      SecondTurnsBalanced(nodes, wallets, m, t, order[1..]);
    }
  }

  // ----- the links of any trace -----

  lemma {:induction false} LinkInside(nodes: Nodes, from: NodeId, to: NodeId)
    requires Inside(Links(nodes)) && from in nodes && to in nodes
    ensures Inside(Links(Link(nodes, from, to)))
  {
    var links, more := Links(nodes), Links(Link(nodes, from, to));
    forall id, i | id in more && 0 <= i < |more[id]| ensures more[id][i] in more {
      if i < |links[id]| { assert links[id][i] in links; }
    }
  }

  lemma {:induction false} OutsInside(b: Built, tx: Tx, i: nat)
    requires OfTx(tx.hash) in b.nodes && i <= |tx.outMsgs| && Inside(Links(b.nodes))
    ensures var c := AddOuts(b, tx, i); c.Some? ==> Inside(Links(c.value.nodes))
    decreases |tx.outMsgs| - i
  {
    if i < |tx.outMsgs| {
      var m, me := tx.outMsgs[i], OfTx(tx.hash);
      var c := AddOut(b, tx, i, m);
      if m.destination.None? {
        var log := OfLog(tx.hash, i);
        NewNodeInside(b.nodes, log, Node(tx, Some(m), false, [], None));
        LinkInside(b.nodes[log := Node(tx, Some(m), false, [], None)], me, log);
      } else if c.Some? {
        LinkInside(b.nodes, me, Target(b, m));
      }
      if c.Some? { OutsInside(c.value, tx, i + 1); }
    }
  }

  lemma {:induction false} NewNodeInside(nodes: Nodes, id: NodeId, node: Node)
    requires Inside(Links(nodes)) && node.next == []
    ensures Inside(Links(nodes[id := node]))
  {
    var links, more := Links(nodes), Links(nodes[id := node]);
    forall k, i | k in more && 0 <= i < |more[k]| ensures more[k][i] in more {
      assert links[k][i] in links;
    }
  }

  lemma {:induction false} TxsInside(b: Built, txs: seq<Tx>, n: nat)
    requires n <= |txs| && Inside(Links(b.nodes))
    ensures var c := AddTxs(b, txs, n); c.Some? ==> Inside(Links(c.value.nodes))
    decreases |txs| - n
  {
    if n < |txs| {
      var tx := txs[n];
      var c := AddTx(b, tx);
      if OfTx(tx.hash) !in b.nodes {
        NewNodeInside(b.nodes, OfTx(tx.hash), Node(tx, tx.inMsg, true, [], None));
        OutsInside(Open(b, tx), tx, 0);
      }
      if c.Some? { TxsInside(c.value, txs, n + 1); }
    }
  }

  lemma {:induction false} ReadInside(nodes: Nodes)
    requires Inside(Links(nodes))
    ensures Inside(ReadLinks(nodes))
  {
    var links, read := Links(nodes), ReadLinks(nodes);
    forall id, i | id in read && 0 <= i < |read[id]| ensures read[id][i] in read {
      assert links[id][i] in links;
    }
  }

  lemma {:induction false} ReadWalk(nodes: Nodes, p: seq<NodeId>, a: NodeId, b: NodeId)
    requires IsWalk(ReadLinks(nodes), p, a, b)
    ensures IsWalk(Links(nodes), p, a, b)
  {
    forall i | 0 <= i < |p| - 1 ensures Step(Links(nodes), p[i], p[i + 1]) {
      assert Step(ReadLinks(nodes), p[i], p[i + 1]);
    }
  }

  /** The second traversal meets no cycle that the first does not. */
  lemma {:induction false} ReadHasNoCycle(nodes: Nodes, root: NodeId)
    requires NoCycleFrom(Links(nodes), root)
    ensures NoCycleFrom(ReadLinks(nodes), root)
  {
    forall id | Reaches(ReadLinks(nodes), root, id) ensures !OnCycle(ReadLinks(nodes), id) {
      var p :| IsWalk(ReadLinks(nodes), p, root, id);
      ReadWalk(nodes, p, root, id);
      assert Reaches(Links(nodes), root, id);
      if OnCycle(ReadLinks(nodes), id) {
        var q :| |q| > 1 && IsWalk(ReadLinks(nodes), q, id, id);
        ReadWalk(nodes, q, id, id);
        assert OnCycle(Links(nodes), id);
      }
    }
  }

  // ----- the calculation -----

  /** The trace has no transaction, a message leads to a transaction without a node, a field that is not set is read,
      or the changes of the whole trace and of its nodes. */
  datatype Outcome = NotFound | MissingChild | MissingField | Found(total: Changes, ledger: Ledger)

  /** A traversal comes to a node on which it fails. */
  ghost predicate FieldMissing(nodes: Nodes, root: NodeId)
  {
    BadAhead(Links(nodes), Broken(nodes), root) || BadAhead(ReadLinks(nodes), Stuck(nodes), root)
  }

  /** Both traversals, as turns in queue order. */
  ghost predicate Traversed(nodes: Nodes, root: NodeId, wallets: Wallets, l: Ledger, total: Changes)
  {
    && root in nodes && Inside(Links(nodes)) && Inside(ReadLinks(nodes))
    && RunsDry(Links(nodes), Broken(nodes), root) && RunsDry(ReadLinks(nodes), Stuck(nodes), root)
    && var first, second := Order(Links(nodes), Broken(nodes), root), Order(ReadLinks(nodes), Stuck(nodes), root);
      && Known(nodes, first) && Known(nodes, second)
      && (l, total) == SecondTurns(nodes, wallets, FirstTurns(nodes, map[], first), EMPTY, second)
  }

  ghost predicate IsResult(txs: seq<Tx>, wallets: Wallets, l: Ledger, total: Changes)
  {
    && txs != [] && AddTxs(START, txs, 0).Some?
    && Traversed(AddTxs(START, txs, 0).value.nodes, Root(txs), wallets, l, total)
  }

  ghost function Root(txs: seq<Tx>): (r: NodeId)
    requires txs != []
  {
    OfTx(txs[|txs| - 1].hash)
  }

  /** For every order that the sort by logical time may give, where the traversals come to an end: where no cycle can be
      reached from the root, or a node on which the first fails. */
  method CalculateBalanceChanges(txs: seq<Tx>, wallets: Wallets) returns (r: Outcome)
    requires txs != [] && AddTxs(START, txs, 0).Some? ==>
      var nodes := AddTxs(START, txs, 0).value.nodes; Stops(Links(nodes), Broken(nodes), Root(txs))
    ensures r.NotFound? <==> txs == []
    ensures txs != [] ==> (r.MissingChild? <==> AddTxs(START, txs, 0).None?)
    ensures txs != [] && AddTxs(START, txs, 0).Some? ==>
      (r.MissingField? <==> FieldMissing(AddTxs(START, txs, 0).value.nodes, Root(txs)))
    ensures r.Found? ==> Balanced(r.total) && AllBalanced(r.ledger)
    ensures r.Found? ==> Sum(Summarized(r.total)) == -Sum(r.total.fees)
    ensures r.Found? ==> IsResult(txs, wallets, r.ledger, r.total)
  {
    if txs == [] { return NotFound; }
    var b := Build(txs);
    if b.None? { return MissingChild; }
    var nodes, root := b.value.nodes, OfTx(txs[|txs| - 1].hash);
    LinksOf(txs);
    var first := FirstTraversal(nodes, root);
    DryExactly(Links(nodes), Broken(nodes), root);
    FailsExactly(Links(nodes), Broken(nodes), root);
    if first.None? { return MissingField; }
    ReadHasNoCycle(nodes, root);
    var second := SecondTraversal(nodes, root, wallets, first.value);
    DryExactly(ReadLinks(nodes), Stuck(nodes), root);
    FailsExactly(ReadLinks(nodes), Stuck(nodes), root);
    if second.None? { return MissingField; }
    TraversedBalanced(nodes, root, wallets, second.value.0, second.value.1);
    r := Found(second.value.1, second.value.0);
  }

  lemma {:induction false} TraversedBalanced(nodes: Nodes, root: NodeId, wallets: Wallets, l: Ledger, total: Changes)
    requires Traversed(nodes, root, wallets, l, total)
    ensures Balanced(total) && AllBalanced(l) && Sum(Summarized(total)) == -Sum(total.fees)
  {
    var first, second := Order(Links(nodes), Broken(nodes), root), Order(ReadLinks(nodes), Stuck(nodes), root);
    EmptyBalanced();
    FirstTurnsBalanced(nodes, map[], first);
    SecondTurnsBalanced(nodes, wallets, FirstTurns(nodes, map[], first), EMPTY, second);
    SummarizedSum(total);
  }

  lemma {:induction false} LinksOf(txs: seq<Tx>)
    requires txs != []
    ensures var c := AddTxs(START, txs, 0);
      c.Some? ==> Inside(Links(c.value.nodes)) && Inside(ReadLinks(c.value.nodes)) && Root(txs) in c.value.nodes
  {
    TxsInside(START, txs, 0);
    var c := AddTxs(START, txs, 0);
    if c.Some? { ReadInside(c.value.nodes); }
    TxsKeepNodes(START, txs, 0, Root(txs));
  }

  lemma {:induction false} OutsKeepNodes(b: Built, tx: Tx, i: nat, id: NodeId)
    requires OfTx(tx.hash) in b.nodes && i <= |tx.outMsgs| && id in b.nodes
    ensures var c := AddOuts(b, tx, i); c.Some? ==> id in c.value.nodes
    decreases |tx.outMsgs| - i
  {
    if i < |tx.outMsgs| {
      var c := AddOut(b, tx, i, tx.outMsgs[i]);
      if c.Some? { OutsKeepNodes(c.value, tx, i + 1, id); }
    }
  }

  lemma {:induction false} TxsKeepNodes(b: Built, txs: seq<Tx>, n: nat, id: NodeId)
    requires n <= |txs| && (id in b.nodes || exists j :: n <= j < |txs| && id == OfTx(txs[j].hash))
    ensures var c := AddTxs(b, txs, n); c.Some? ==> id in c.value.nodes
    decreases |txs| - n
  {
    if n < |txs| {
      var tx := txs[n];
      var c := AddTx(b, tx);
      if c.Some? {
        if OfTx(tx.hash) !in b.nodes && (id in b.nodes || id == OfTx(tx.hash)) {
          OutsKeepNodes(Open(b, tx), tx, 0, id);
        }
        TxsKeepNodes(c.value, txs, n + 1, id);
      }
    }
  }
}
