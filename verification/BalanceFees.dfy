/** On a complete trace the construction gives the tree of the messages, with a leaf for every message without a
    destination. */
module BalanceFees {
  import opened Basics
  import opened Forest
  import opened BalanceTrace
  import opened BalanceBuild

  function InHash(tx: Tx): (h: Hash)
  {
    if tx.inMsg.Some? then tx.inMsg.value.hash else NO_HASH
  }

  /** Transactions with their places, the consumer of each message, and the emitter of each message with its place
      there. */
  datatype Trace = Trace(txs: seq<Tx>, pos: map<Hash, nat>, to: map<Hash, nat>, from: map<Hash, (nat, nat)>)

  /** A message that goes to nobody. */
  predicate IsLog(m: Message)
  {
    m.destination.None?
  }

  /** The transaction consumes one message, addressed to its account, and emits messages from it. */
  ghost predicate Whole(tx: Tx)
  {
    && tx.inMsg.Some? && tx.inMsg.value.destination == Some(tx.account)
    && forall i :: 0 <= i < |tx.outMsgs| ==> tx.outMsgs[i].source == Some(tx.account)
  }

  /** The message is consumed by a later transaction, from the account of the `j`-th. */
  ghost predicate Delivered(t: Trace, j: nat, h: Hash)
    requires j < |t.txs|
  {
    && h in t.to && t.to[h] < |t.txs|
    && t.txs[t.to[h]].lt > t.txs[j].lt
    && t.txs[t.to[h]].inMsg.Some? && t.txs[t.to[h]].inMsg.value.source == Some(t.txs[j].account)
  }

  /** The `i`-th message of the `j`-th transaction is emitted only there, and is delivered if and only if it has a
      destination. */
  ghost predicate Sent(t: Trace, j: nat, i: nat)
    requires j < |t.txs| && i < |t.txs[j].outMsgs|
  {
    var m := t.txs[j].outMsgs[i];
    && m.hash in t.from && t.from[m.hash] == (j, i)
    && if IsLog(m) then m.hash !in t.to else Delivered(t, j, m.hash)
  }

  ghost predicate Emitted(t: Trace, h: Hash)
    requires h in t.from
  {
    var (j, i) := t.from[h];
    j < |t.txs| && i < |t.txs[j].outMsgs| && t.txs[j].outMsgs[i].hash == h
  }

  /** The `j`-th transaction is where the indexes say, is whole, is not earlier than the later ones in the list, and its
      messages are delivered. */
  ghost predicate TxOk(t: Trace, j: nat)
  {
    j < |t.txs| ==>
      var tx := t.txs[j];
      && tx.hash in t.pos && t.pos[tx.hash] == j && tx.hash != NO_HASH
      && InHash(tx) in t.to && t.to[InHash(tx)] == j
      && Whole(tx)
      && (forall k :: j < k < |t.txs| ==> tx.lt >= t.txs[k].lt)
      && (forall i :: 0 <= i < |tx.outMsgs| ==> Sent(t, j, i))
  }

  /** The indexes hold nothing else. */
  ghost predicate HashOk(t: Trace, h: Hash)
  {
    && (h in t.pos ==> t.pos[h] < |t.txs| && t.txs[t.pos[h]].hash == h)
    && (h in t.to ==> t.to[h] < |t.txs| && InHash(t.txs[t.to[h]]) == h)
    && (h in t.from ==> Emitted(t, h))
  }

  /** The transaction consumes a message from outside. */
  ghost predicate Outer(t: Trace, j: nat)
  {
    j < |t.txs| && InHash(t.txs[j]) !in t.from
  }

  /** Every message emitted with a destination is consumed by a later transaction of the trace, no message is consumed
      or emitted twice, and only one transaction consumes a message from outside. The transactions are sorted by
      descending logical time. */
  ghost predicate Complete(t: Trace)
  {
    && (forall j: nat :: TxOk(t, j))
    && (forall h: Hash :: HashOk(t, h))
    && (forall j: nat, k: nat :: Outer(t, j) && Outer(t, k) ==> j == k)
  }

  lemma {:induction false} ChildComesFirst(t: Trace, j: nat, i: nat)
    requires Complete(t) && j < |t.txs| && i < |t.txs[j].outMsgs|
    ensures Sent(t, j, i) && (!IsLog(t.txs[j].outMsgs[i]) ==> t.to[t.txs[j].outMsgs[i].hash] < j)
  {
    assert TxOk(t, j);
  }

  lemma {:induction false} EmitterComesLater(t: Trace, j: nat)
    requires Complete(t) && j < |t.txs| && InHash(t.txs[j]) in t.from
    ensures Emitted(t, InHash(t.txs[j])) && t.from[InHash(t.txs[j])].0 > j
    ensures t.txs[t.from[InHash(t.txs[j])].0].lt < t.txs[j].lt
  {
    assert HashOk(t, InHash(t.txs[j])) && TxOk(t, j);
    var (e, i) := t.from[InHash(t.txs[j])];
    ChildComesFirst(t, e, i);
  }

  /** The last transaction is the only one that consumes a message from outside, and the only earliest one. */
  lemma {:induction false} LastIsRoot(t: Trace, j: nat)
    requires Complete(t) && j < |t.txs|
    ensures InHash(t.txs[j]) !in t.from <==> j == |t.txs| - 1
    ensures j < |t.txs| - 1 ==> t.txs[|t.txs| - 1].lt < t.txs[j].lt
  {
    var last := |t.txs| - 1;
    if InHash(t.txs[last]) in t.from { EmitterComesLater(t, last); }
    assert Outer(t, last);
    if j < last {
      assert !Outer(t, j);
      EmitterComesLater(t, j);
      assert TxOk(t, t.from[InHash(t.txs[j])].0);
    }
  }

  lemma {:induction false} CompleteHasNoSelfLinks(t: Trace, j: nat)
    requires Complete(t) && j < |t.txs|
    ensures NoSelfLinks(t.txs[j])
  {
    assert TxOk(t, j);
    var outs := t.txs[j].outMsgs;
    forall i | 0 <= i < |outs| ensures Sent(t, j, i) && (!IsLog(outs[i]) ==> outs[i].hash != InHash(t.txs[j])) {
      ChildComesFirst(t, j, i);
    }
    forall i, k | 0 <= k < i < |outs| ensures outs[i].hash != outs[k].hash {
      assert Sent(t, j, i) && Sent(t, j, k);
    }
  }

  lemma {:induction false} CompleteIsPlaced(t: Trace)
    requires Complete(t)
    ensures Placed(t.txs, t.pos)
  {
    forall j | 0 <= j < |t.txs| ensures t.txs[j].hash in t.pos && t.pos[t.txs[j].hash] == j {
      assert TxOk(t, j);
    }
    forall h | h in t.pos ensures h != NO_HASH && t.pos[h] < |t.txs| && t.txs[t.pos[h]].hash == h {
      assert HashOk(t, h) && TxOk(t, t.pos[h]);
    }
  }

  // ----- the nodes built so far -----

  /** The node that an emitted message leads to. */
  ghost function ChildId(t: Trace, m: Message): (r: NodeId)
  {
    if m.hash in t.to && t.to[m.hash] < |t.txs| then OfTx(t.txs[t.to[m.hash]].hash) else OfTx(NO_HASH)
  }

  /** The node of the `i`-th message of a transaction: its own if it goes to nobody, otherwise its consumer's. */
  ghost function ChildAt(t: Trace, tx: Tx, i: nat): (r: NodeId)
    requires i < |tx.outMsgs|
  {
    if IsLog(tx.outMsgs[i]) then OfLog(tx.hash, i) else ChildId(t, tx.outMsgs[i])
  }

  ghost function Children(t: Trace, tx: Tx, n: nat): (r: seq<NodeId>)
    requires n <= |tx.outMsgs|
    ensures |r| == n && forall i :: 0 <= i < n ==> r[i] == ChildAt(t, tx, i)
  {
    seq(n, i requires 0 <= i < n => ChildAt(t, tx, i))
  }

  /** The node of the emitter of the message that led to `tx`, if it is among the first `n` transactions, or the message
      among the first `k` of the next one. */
  ghost function PrevIn(t: Trace, tx: Tx, n: nat, k: nat): (r: Option<NodeId>)
  {
    var h := InHash(tx);
    if h in t.from && t.from[h].0 < |t.txs| && (t.from[h].0 < n || (t.from[h].0 == n && t.from[h].1 < k))
    then Some(OfTx(t.txs[t.from[h].0].hash)) else None
  }

  /** The node of the `j`-th transaction when the first `n` are linked, and the first `k` messages of the next. */
  ghost function NodeAt(t: Trace, n: nat, k: nat, j: nat): (r: Node)
    requires j < |t.txs|
  {
    var tx := t.txs[j];
    Node(tx, tx.inMsg, true,
         Children(t, tx, if j < n || k > |tx.outMsgs| then |tx.outMsgs| else k), PrevIn(t, tx, n, k))
  }

  /** The node of a message that goes to nobody. */
  function LogNode(tx: Tx, i: nat): (r: Node)
    requires i < |tx.outMsgs|
  {
    Node(tx, Some(tx.outMsgs[i]), false, [], Some(OfTx(tx.hash)))
  }

  /** The node is that of a message to nobody, of the first `n` transactions or among the first `k` of the next. */
  ghost predicate LogBuilt(t: Trace, n: nat, k: nat, id: NodeId)
    requires id.OfLog?
  {
    && id.tx in t.pos && t.pos[id.tx] < |t.txs|
    && var j, outs := t.pos[id.tx], t.txs[t.pos[id.tx]].outMsgs;
      0 <= id.index < |outs| && IsLog(outs[id.index]) && (j < n || (j == n && id.index < k))
  }

  /** Of the messages consumed in the trace, those consumed by the first `all` transactions are known. */
  ghost predicate Leading(msgTx: map<Hash, Hash>, t: Trace, all: nat)
  {
    forall h: Hash :: LeadsRight(msgTx, t, all, h)
  }

  ghost predicate LeadsRight(msgTx: map<Hash, Hash>, t: Trace, all: nat, h: Hash)
  {
    h in t.to && t.to[h] < |t.txs| ==>
      (h in msgTx <==> t.to[h] < all) && (h in msgTx ==> msgTx[h] == t.txs[t.to[h]].hash)
  }

  /** There are nodes for the first `all` transactions, linked as far as `n` and `k` say. */
  ghost predicate Upto(nodes: Nodes, t: Trace, all: nat, n: nat, k: nat)
  {
    forall id: NodeId :: NodeRight(nodes, t, all, n, k, id)
  }

  ghost predicate NodeRight(nodes: Nodes, t: Trace, all: nat, n: nat, k: nat, id: NodeId)
  {
    if id.OfTx? then
      && (id in nodes <==> id.tx in t.pos && t.pos[id.tx] < all)
      && (id in nodes && t.pos[id.tx] < |t.txs| ==> nodes[id] == NodeAt(t, n, k, t.pos[id.tx]))
    else
      && (id in nodes <==> LogBuilt(t, n, k, id))
      && (id in nodes ==> nodes[id] == LogNode(t.txs[t.pos[id.tx]], id.index))
  }

  lemma {:induction false} OpenLinks(b: Built, t: Trace, n: nat)
    requires Complete(t) && n < |t.txs| && Upto(b.nodes, t, n, n, 0) && Leading(b.msgTx, t, n)
    ensures OfTx(t.txs[n].hash) !in b.nodes
    ensures Upto(Open(b, t.txs[n]).nodes, t, n + 1, n, 0) && Leading(Open(b, t.txs[n]).msgTx, t, n + 1)
  {
    var tx, c, all := t.txs[n], Open(b, t.txs[n]), n + 1;
    assert TxOk(t, n);
    assert NodeRight(b.nodes, t, n, n, 0, OfTx(tx.hash));
    forall id: NodeId ensures NodeRight(c.nodes, t, all, n, 0, id) {
      assert NodeRight(b.nodes, t, n, n, 0, id);
      if id.OfTx? { assert HashOk(t, id.tx); }
      OpenNode(t, n);
    }
    forall h: Hash ensures LeadsRight(c.msgTx, t, all, h) {
      assert LeadsRight(b.msgTx, t, n, h) && HashOk(t, h);
    }
  }

  lemma {:induction false} OpenNode(t: Trace, n: nat)
    requires Complete(t) && n < |t.txs|
    ensures NodeAt(t, n, 0, n) == Node(t.txs[n], t.txs[n].inMsg, true, [], None)
  {
    if InHash(t.txs[n]) in t.from { EmitterComesLater(t, n); }
  }

  lemma {:induction false} ChildIsBuilt(b: Built, t: Trace, n: nat, k: nat)
    requires Complete(t) && n < |t.txs| && k < |t.txs[n].outMsgs| && !IsLog(t.txs[n].outMsgs[k])
    requires Upto(b.nodes, t, n + 1, n, k) && Leading(b.msgTx, t, n + 1)
    ensures var m := t.txs[n].outMsgs[k];
      && Delivered(t, n, m.hash) && t.to[m.hash] < n
      && Target(b, m) in b.nodes && Target(b, m) == ChildId(t, m)
      && ChildId(t, m).tx in t.pos && t.pos[ChildId(t, m).tx] == t.to[m.hash]
  {
    var m := t.txs[n].outMsgs[k];
    ChildComesFirst(t, n, k);
    assert TxOk(t, n) && TxOk(t, t.to[m.hash]) && LeadsRight(b.msgTx, t, n + 1, m.hash);
    assert NodeRight(b.nodes, t, n + 1, n, k, ChildId(t, m));
  }

  /** The `k`-th message of the `n`-th transaction is what the `j`-th consumes. */
  ghost predicate LeadsTo(t: Trace, n: nat, k: nat, j: nat)
    requires n < |t.txs| && k < |t.txs[n].outMsgs|
  {
    var m := t.txs[n].outMsgs[k];
    !IsLog(m) && m.hash in t.to && t.to[m.hash] == j
  }

  lemma {:induction false} OneMorePrev(t: Trace, n: nat, k: nat, j: nat)
    requires Complete(t) && j <= n < |t.txs| && k < |t.txs[n].outMsgs|
    ensures PrevIn(t, t.txs[j], n, k + 1) ==
      if LeadsTo(t, n, k, j) then Some(OfTx(t.txs[n].hash)) else PrevIn(t, t.txs[j], n, k)
  {
    ChildComesFirst(t, n, k);
    assert TxOk(t, j) && HashOk(t, t.txs[n].outMsgs[k].hash) && HashOk(t, InHash(t.txs[j]));
    if InHash(t.txs[j]) in t.from { EmitterComesLater(t, j); }
  }

  /** What linking the `k`-th message of the `n`-th transaction changes of the nodes of transactions. */
  lemma {:induction false} OneMoreLink(t: Trace, n: nat, k: nat, j: nat)
    requires Complete(t) && j <= n < |t.txs| && k < |t.txs[n].outMsgs|
    ensures j < n && LeadsTo(t, n, k, j) ==>
      NodeAt(t, n, k + 1, j) == NodeAt(t, n, k, j).(prev := Some(OfTx(t.txs[n].hash)))
    ensures j < n && !LeadsTo(t, n, k, j) ==> NodeAt(t, n, k + 1, j) == NodeAt(t, n, k, j)
    ensures j == n ==>
      NodeAt(t, n, k + 1, n) == NodeAt(t, n, k, n).(next := NodeAt(t, n, k, n).next + [ChildAt(t, t.txs[n], k)])
  {
    OneMorePrev(t, n, k, j);
    ChildComesFirst(t, n, k);
    if j == n {
      assert Children(t, t.txs[n], k + 1) == Children(t, t.txs[n], k) + [ChildAt(t, t.txs[n], k)];
    }
  }

  lemma {:induction false} SamePlace(t: Trace, a: NodeId, b: NodeId)
    requires Complete(t) && a.OfTx? && b.OfTx? && a.tx in t.pos && b.tx in t.pos
    ensures t.pos[a.tx] == t.pos[b.tx] <==> a == b
  {
    assert HashOk(t, a.tx) && HashOk(t, b.tx);
  }

  lemma {:induction false} LinkedNode(nodes: Nodes, from: NodeId, to: NodeId, id: NodeId)
    requires from in nodes && to in nodes && from != to && id in nodes
    ensures id != from && id != to ==> Link(nodes, from, to)[id] == nodes[id]
    ensures Link(nodes, from, to)[from] == nodes[from].(next := nodes[from].next + [to])
    ensures Link(nodes, from, to)[to] == nodes[to].(prev := Some(from))
  {
  }

  /** The node of a transaction after one more link, to a transaction or to a message. */
  lemma {:induction false} LinkedAsSaid(nodes: Nodes, t: Trace, n: nat, k: nat, id: NodeId)
    requires Complete(t) && n < |t.txs| && k < |t.txs[n].outMsgs|
    requires id.OfTx? && id.tx in t.pos && t.pos[id.tx] <= n
    requires var me, child := OfTx(t.txs[n].hash), ChildAt(t, t.txs[n], k);
      && me in nodes && child in nodes && id in nodes
      && nodes[id] == NodeAt(t, n, k, t.pos[id.tx])
    ensures Link(nodes, OfTx(t.txs[n].hash), ChildAt(t, t.txs[n], k))[id] == NodeAt(t, n, k + 1, t.pos[id.tx])
  {
    var me, child := OfTx(t.txs[n].hash), ChildAt(t, t.txs[n], k);
    ChildComesFirst(t, n, k);
    assert TxOk(t, n);
    if child.OfTx? {
      assert TxOk(t, t.to[t.txs[n].outMsgs[k].hash]);
      SamePlace(t, id, child);
    }
    SamePlace(t, id, me);
    OneMoreLink(t, n, k, t.pos[id.tx]);
    LinkedNode(nodes, me, child, id);
  }

  lemma {:induction false} AddOutLinks(b: Built, t: Trace, n: nat, k: nat)
    requires Complete(t) && n < |t.txs| && k < |t.txs[n].outMsgs| && !IsLog(t.txs[n].outMsgs[k])
    requires Upto(b.nodes, t, n + 1, n, k) && Leading(b.msgTx, t, n + 1) && OfTx(t.txs[n].hash) in b.nodes
    ensures var c := AddOut(b, t.txs[n], k, t.txs[n].outMsgs[k]);
      c.Some? && Upto(c.value.nodes, t, n + 1, n, k + 1) && Leading(c.value.msgTx, t, n + 1)
  {
    ChildIsBuilt(b, t, n, k);
    var nodes := Link(b.nodes, OfTx(t.txs[n].hash), ChildId(t, t.txs[n].outMsgs[k]));
    var all, next := n + 1, k + 1;
    forall id: NodeId ensures NodeRight(nodes, t, all, n, next, id) {
      assert NodeRight(b.nodes, t, all, n, k, id);
      if id.OfTx? {
        if id in b.nodes { LinkedAsSaid(b.nodes, t, n, k, id); }
      } else {
        NoLogHere(t, n, k, id);
      }
    }
  }

  /** A message with a destination makes no leaf. */
  lemma {:induction false} NoLogHere(t: Trace, n: nat, k: nat, id: NodeId)
    requires Complete(t) && n < |t.txs| && k < |t.txs[n].outMsgs| && id.OfLog?
    ensures LogBuilt(t, n, k + 1, id) <==>
      LogBuilt(t, n, k, id) || (IsLog(t.txs[n].outMsgs[k]) && id == OfLog(t.txs[n].hash, k))
  {
    assert TxOk(t, n) && HashOk(t, id.tx);
  }

  /** The leaf of a message to nobody, linked to its transaction. */
  lemma {:induction false} AddLogLinks(b: Built, t: Trace, n: nat, k: nat)
    requires Complete(t) && n < |t.txs| && k < |t.txs[n].outMsgs| && IsLog(t.txs[n].outMsgs[k])
    requires Upto(b.nodes, t, n + 1, n, k) && Leading(b.msgTx, t, n + 1) && OfTx(t.txs[n].hash) in b.nodes
    ensures var c := AddOut(b, t.txs[n], k, t.txs[n].outMsgs[k]);
      c.Some? && Upto(c.value.nodes, t, n + 1, n, k + 1) && Leading(c.value.msgTx, t, n + 1)
  {
    var tx, m, me, log := t.txs[n], t.txs[n].outMsgs[k], OfTx(t.txs[n].hash), OfLog(t.txs[n].hash, k);
    var c := AddOut(b, tx, k, m).value;
    var more := b.nodes[log := Node(tx, Some(m), false, [], None)];
    var all, next := n + 1, k + 1;
    assert c.nodes == Link(more, me, log);
    forall id: NodeId ensures NodeRight(c.nodes, t, all, n, next, id) {
      assert NodeRight(b.nodes, t, all, n, k, id);
      if id.OfTx? {
        if id in b.nodes { LinkedAsSaid(more, t, n, k, id); }
      } else {
        NoLogHere(t, n, k, id);
        if id in more { LinkedNode(more, me, log, id); }
        assert TxOk(t, n);
      }
    }
    ChildComesFirst(t, n, k);
    forall h: Hash ensures LeadsRight(c.msgTx, t, all, h) {
      assert LeadsRight(b.msgTx, t, all, h);
    }
  }

  lemma {:induction false} AddOutsLinks(b: Built, t: Trace, n: nat, k: nat)
    requires Complete(t) && n < |t.txs| && k <= |t.txs[n].outMsgs| && OfTx(t.txs[n].hash) in b.nodes
    requires Upto(b.nodes, t, n + 1, n, k) && Leading(b.msgTx, t, n + 1)
    ensures var c := AddOuts(b, t.txs[n], k);
      c.Some? && Upto(c.value.nodes, t, n + 1, n, |t.txs[n].outMsgs|) && Leading(c.value.msgTx, t, n + 1)
    decreases |t.txs[n].outMsgs| - k
  {
    if k < |t.txs[n].outMsgs| {
      if IsLog(t.txs[n].outMsgs[k]) { AddLogLinks(b, t, n, k); } else { AddOutLinks(b, t, n, k); }
      AddOutsLinks(AddOut(b, t.txs[n], k, t.txs[n].outMsgs[k]).value, t, n, k + 1);
    }
  }

  lemma {:induction false} ClosedNode(t: Trace, n: nat, j: nat)
    requires Complete(t) && j <= n < |t.txs|
    ensures NodeAt(t, n, |t.txs[n].outMsgs|, j) == NodeAt(t, n + 1, 0, j)
  {
    if InHash(t.txs[j]) in t.from { EmitterComesLater(t, j); }
  }

  lemma {:induction false} AddTxLinks(b: Built, t: Trace, n: nat)
    requires Complete(t) && n < |t.txs| && Upto(b.nodes, t, n, n, 0) && Leading(b.msgTx, t, n)
    ensures var c := AddTx(b, t.txs[n]);
      c.Some? && Upto(c.value.nodes, t, n + 1, n + 1, 0) && Leading(c.value.msgTx, t, n + 1)
  {
    OpenLinks(b, t, n);
    AddOutsLinks(Open(b, t.txs[n]), t, n, 0);
    var nodes := AddTx(b, t.txs[n]).value.nodes;
    var all := n + 1;
    forall id: NodeId ensures NodeRight(nodes, t, all, all, 0, id) {
      assert NodeRight(nodes, t, all, n, |t.txs[n].outMsgs|, id);
      if id.OfTx? && id in nodes { ClosedNode(t, n, t.pos[id.tx]); }
    }
  }

  /** Every child lookup of the construction finds a node, and the nodes are linked as the messages say. */
  lemma {:induction false} BuildLinks(b: Built, t: Trace, n: nat)
    requires Complete(t) && n <= |t.txs| && Upto(b.nodes, t, n, n, 0) && Leading(b.msgTx, t, n)
    ensures var c := AddTxs(b, t.txs, n); c.Some? && Upto(c.value.nodes, t, |t.txs|, |t.txs|, 0)
    decreases |t.txs| - n
  {
    if n < |t.txs| {
      AddTxLinks(b, t, n);
      BuildLinks(AddTx(b, t.txs[n]).value, t, n + 1);
    }
  }

  // ----- the tree -----

  ghost function Tree(t: Trace, nodes: Nodes): (s: Shape<NodeId>)
  {
    ShapeOf(nodes, Ranks(nodes, t.pos), |t.txs| + 1)
  }

  ghost predicate Finished(t: Trace, nodes: Nodes)
  {
    Complete(t) && Upto(nodes, t, |t.txs|, |t.txs|, 0)
  }

  /** A node of the finished construction, by its place. */
  lemma {:induction false} BuiltNode(t: Trace, nodes: Nodes, id: NodeId)
    requires Finished(t, nodes) && id in nodes && id.OfTx?
    ensures id.tx in t.pos && t.pos[id.tx] < |t.txs| && id == OfTx(t.txs[t.pos[id.tx]].hash)
    ensures var tx := t.txs[t.pos[id.tx]];
      nodes[id] == Node(tx, tx.inMsg, true, Children(t, tx, |tx.outMsgs|), PrevIn(t, tx, |t.txs|, 0)) && Whole(tx)
  {
    assert NodeRight(nodes, t, |t.txs|, |t.txs|, 0, id) && HashOk(t, id.tx);
    assert TxOk(t, t.pos[id.tx]);
  }

  lemma {:induction false} BuiltLog(t: Trace, nodes: Nodes, id: NodeId)
    requires Finished(t, nodes) && id in nodes && id.OfLog?
    ensures id.tx in t.pos && t.pos[id.tx] < |t.txs|
    ensures var tx := t.txs[t.pos[id.tx]];
      && tx.hash == id.tx && 0 <= id.index < |tx.outMsgs| && IsLog(tx.outMsgs[id.index])
      && nodes[id] == LogNode(tx, id.index)
  {
    assert NodeRight(nodes, t, |t.txs|, |t.txs|, 0, id) && HashOk(t, id.tx);
  }

  lemma {:induction false} NodeOf(t: Trace, nodes: Nodes, j: nat)
    requires Finished(t, nodes) && j < |t.txs|
    ensures OfTx(t.txs[j].hash) in nodes && t.txs[j].hash in t.pos && t.pos[t.txs[j].hash] == j
  {
    assert TxOk(t, j) && NodeRight(nodes, t, |t.txs|, |t.txs|, 0, OfTx(t.txs[j].hash));
  }

  lemma {:induction false} LogOf(t: Trace, nodes: Nodes, j: nat, i: nat)
    requires Finished(t, nodes) && j < |t.txs| && i < |t.txs[j].outMsgs| && IsLog(t.txs[j].outMsgs[i])
    ensures OfLog(t.txs[j].hash, i) in nodes && nodes[OfLog(t.txs[j].hash, i)] == LogNode(t.txs[j], i)
  {
    assert TxOk(t, j) && NodeRight(nodes, t, |t.txs|, |t.txs|, 0, OfLog(t.txs[j].hash, i));
  }

  /** A message leads from its emitter to its consumer or its leaf, and back. */
  lemma {:induction false} LinkBothWays(t: Trace, nodes: Nodes, j: nat, i: nat)
    requires Finished(t, nodes) && j < |t.txs| && i < |t.txs[j].outMsgs|
    ensures var m, c := t.txs[j].outMsgs[i], ChildAt(t, t.txs[j], i);
      && c in nodes && nodes[c].prev == Some(OfTx(t.txs[j].hash))
      && nodes[c].msg.Some? && nodes[c].msg.value.hash == m.hash
      && nodes[c].msg.value.source == Some(t.txs[j].account)
  {
    var h := t.txs[j].outMsgs[i].hash;
    ChildComesFirst(t, j, i);
    assert TxOk(t, j);
    if IsLog(t.txs[j].outMsgs[i]) {
      LogOf(t, nodes, j, i);
    } else {
      assert HashOk(t, h);
      NodeOf(t, nodes, t.to[h]);
      BuiltNode(t, nodes, OfTx(t.txs[t.to[h]].hash));
    }
  }

  lemma {:induction false} BackLink(t: Trace, nodes: Nodes, c: NodeId) returns (i: nat)
    requires Finished(t, nodes) && c in nodes && nodes[c].prev.Some?
    ensures nodes[c].prev.value in nodes && i < |nodes[nodes[c].prev.value].next|
    ensures nodes[nodes[c].prev.value].next[i] == c
  {
    if c.OfLog? {
      BuiltLog(t, nodes, c);
      i := c.index;
      NodeOf(t, nodes, t.pos[c.tx]);
    } else {
      BuiltNode(t, nodes, c);
      var k := t.pos[c.tx];
      EmitterComesLater(t, k);
      var h := InHash(t.txs[k]);
      i := t.from[h].1;
      NodeOf(t, nodes, t.from[h].0);
      ChildComesFirst(t, t.from[h].0, i);
      assert TxOk(t, k);
    }
    BuiltNode(t, nodes, nodes[c].prev.value);
  }

  lemma {:induction false} ChildrenDiffer(t: Trace, nodes: Nodes, j: nat, i: nat, k: nat)
    requires Finished(t, nodes) && j < |t.txs| && i < k < |t.txs[j].outMsgs|
    ensures ChildAt(t, t.txs[j], i) != ChildAt(t, t.txs[j], k)
  {
    LinkBothWays(t, nodes, j, i);
    LinkBothWays(t, nodes, j, k);
    ChildComesFirst(t, j, i);
    ChildComesFirst(t, j, k);
  }

  lemma {:induction false} CountDistinct<T>(xs: seq<T>, c: T)
    requires forall i, k :: 0 <= i < k < |xs| ==> xs[i] != xs[k]
    ensures multiset(xs)[c] == if c in xs then 1 else 0
  {
    if xs != [] {
      assert xs == [xs[0]] + xs[1..];
      CountDistinct(xs[1..], c);
    }
  }

  /** A node and a possible child: once in the list if and only if it points back. */
  lemma {:induction false} Sits(t: Trace, nodes: Nodes, p: NodeId, c: NodeId)
    requires Finished(t, nodes) && p in nodes
    ensures SitsRight(Tree(t, nodes), p, c)
  {
    var next := nodes[p].next;
    if p.OfLog? {
      BuiltLog(t, nodes, p);
    } else {
      BuiltNode(t, nodes, p);
      forall i, k | 0 <= i < k < |next| ensures next[i] != next[k] {
        ChildrenDiffer(t, nodes, t.pos[p.tx], i, k);
      }
    }
    CountDistinct(next, c);
    if c in next {
      var i :| 0 <= i < |next| && next[i] == c;
      LinkBothWays(t, nodes, t.pos[p.tx], i);
    } else if c in nodes && nodes[c].prev == Some(p) {
      var i := BackLink(t, nodes, c);
    }
  }

  lemma {:induction false} OnlyRootHasNoPrev(t: Trace, nodes: Nodes, c: NodeId)
    requires Finished(t, nodes) && t.txs != [] && c in nodes
    ensures nodes[c].prev.Some? <==> c != OfTx(t.txs[|t.txs| - 1].hash)
  {
    if c.OfLog? {
      BuiltLog(t, nodes, c);
    } else {
      BuiltNode(t, nodes, c);
      NodeOf(t, nodes, |t.txs| - 1);
      LastIsRoot(t, t.pos[c.tx]);
      if t.pos[c.tx] < |t.txs| - 1 { EmitterComesLater(t, t.pos[c.tx]); }
    }
  }

  /** The nodes are a tree below the last transaction. */
  lemma {:induction false} BuiltTree(t: Trace, nodes: Nodes)
    requires Finished(t, nodes) && t.txs != []
    requires Ranked(Tree(t, nodes))
    ensures IsTree(Tree(t, nodes), OfTx(t.txs[|t.txs| - 1].hash))
  {
    var s, root := Tree(t, nodes), OfTx(t.txs[|t.txs| - 1].hash);
    forall p, c | p in s.kids ensures SitsRight(s, p, c) {
      Sits(t, nodes, p, c);
    }
    forall c | c in s.par ensures s.par[c] in s.kids {
      var i := BackLink(t, nodes, c);
    }
    NodeOf(t, nodes, |t.txs| - 1);
    forall c | c in nodes ensures nodes[c].prev.Some? <==> c != root {
      OnlyRootHasNoPrev(t, nodes, c);
    }
    assert s.par.Keys == s.kids.Keys - {root};
  }
}
