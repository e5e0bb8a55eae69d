/** The child-first construction: its links have no cycle, and on a complete trace it gives the tree of the messages. */
module BalanceBuild {
  import opened Basics
  import opened Forest
  import opened Cycles
  import opened BalanceTrace

  /** `pos` gives the place of every transaction, and of nothing else. */
  ghost predicate Placed(txs: seq<Tx>, pos: map<Hash, nat>)
  {
    && (forall j :: 0 <= j < |txs| ==> txs[j].hash in pos && pos[txs[j].hash] == j)
    && (forall h :: h in pos ==> h != NO_HASH && pos[h] < |txs| && txs[pos[h]].hash == h)
  }

  /** No message with a destination leads back to its emitter: none has the hash of the message consumed, or of an
      earlier emitted one without a destination. */
  ghost predicate NoSelfLinks(tx: Tx)
  {
    && (forall i :: 0 <= i < |tx.outMsgs| && tx.outMsgs[i].destination.Some? && tx.inMsg.Some? ==>
          tx.outMsgs[i].hash != tx.inMsg.value.hash)
    && (forall i, j ::
          0 <= j < i < |tx.outMsgs| && tx.outMsgs[i].destination.Some? && tx.outMsgs[j].destination.None? ==>
          tx.outMsgs[i].hash != tx.outMsgs[j].hash)
  }

  function Rank(pos: map<Hash, nat>, id: NodeId): (r: nat)
  {
    if id.OfTx? && id.tx in pos then pos[id.tx] + 1 else 0
  }

  /** The transaction that emits a message that leads to itself. */
  ghost predicate Homing(txs: seq<Tx>, pos: map<Hash, nat>, id: NodeId)
  {
    id.OfTx? && id.tx in pos && pos[id.tx] < |txs| && !NoSelfLinks(txs[pos[id.tx]])
  }

  /** Every link goes to a node of a lower rank, or from such a transaction to itself. */
  ghost predicate Sound(nodes: Nodes, txs: seq<Tx>, pos: map<Hash, nat>, n: nat)
  {
    && (forall id :: id in nodes ==> Rank(pos, id) <= n && (id.OfTx? ==> id.tx in pos))
    && (forall id, i :: id in nodes && 0 <= i < |nodes[id].next| ==> LinkOk(nodes, txs, pos, id, nodes[id].next[i]))
  }

  ghost predicate LinkOk(nodes: Nodes, txs: seq<Tx>, pos: map<Hash, nat>, from: NodeId, to: NodeId)
  {
    to in nodes && (Rank(pos, to) < Rank(pos, from) || (to == from && Homing(txs, pos, from)))
  }

  /** The known messages lead to earlier transactions, or are those that `tx` consumes or, among its first `n`, emits
      without a destination. */
  ghost predicate Leads(b: Built, pos: map<Hash, nat>, tx: Tx, n: int)
    requires tx.hash in pos
  {
    forall h :: h in b.msgTx ==>
      && b.msgTx[h] in pos
      && (pos[b.msgTx[h]] < pos[tx.hash] || (b.msgTx[h] == tx.hash && OwnHash(tx, h, n)))
  }

  predicate OwnHash(tx: Tx, h: Hash, n: int)
  {
    || (tx.inMsg.Some? && tx.inMsg.value.hash == h)
    || exists i | 0 <= i < |tx.outMsgs| :: i < n && tx.outMsgs[i].destination.None? && tx.outMsgs[i].hash == h
  }

  ghost predicate Place(txs: seq<Tx>, pos: map<Hash, nat>, tx: Tx)
  {
    tx.hash in pos && NO_HASH !in pos && pos[tx.hash] < |txs| && txs[pos[tx.hash]] == tx
  }

  lemma {:induction false} LinkSound(nodes: Nodes, txs: seq<Tx>, pos: map<Hash, nat>, n: nat, from: NodeId, to: NodeId)
    requires Sound(nodes, txs, pos, n) && from in nodes && LinkOk(nodes, txs, pos, from, to)
    ensures Sound(Link(nodes, from, to), txs, pos, n)
  {
    var more := Link(nodes, from, to);
    forall id, i | id in more && 0 <= i < |more[id].next| ensures LinkOk(more, txs, pos, id, more[id].next[i]) {
      if i < |nodes[id].next| { assert LinkOk(nodes, txs, pos, id, nodes[id].next[i]); }
    }
  }

  lemma {:induction false} AddOutSound(b: Built, txs: seq<Tx>, pos: map<Hash, nat>, tx: Tx, i: int)
    requires Place(txs, pos, tx) && OfTx(tx.hash) in b.nodes && 0 <= i < |tx.outMsgs|
    requires Sound(b.nodes, txs, pos, pos[tx.hash] + 1) && Leads(b, pos, tx, i)
    ensures var c := AddOut(b, tx, i, tx.outMsgs[i]);
      c.Some? ==> Sound(c.value.nodes, txs, pos, pos[tx.hash] + 1) && Leads(c.value, pos, tx, i + 1)
  {
    var m, me := tx.outMsgs[i], OfTx(tx.hash);
    if m.destination.None? {
      var log := OfLog(tx.hash, i);
      var more := b.nodes[log := Node(tx, Some(m), false, [], None)];
      forall id, k | id in more && 0 <= k < |more[id].next| ensures LinkOk(more, txs, pos, id, more[id].next[k]) {
        assert LinkOk(b.nodes, txs, pos, id, b.nodes[id].next[k]);
      }
      LinkSound(more, txs, pos, pos[tx.hash] + 1, me, log);
      assert OwnHash(tx, m.hash, i + 1);
    } else if Target(b, m) in b.nodes {
      LinkSound(b.nodes, txs, pos, pos[tx.hash] + 1, me, Target(b, m));
    }
  }

  lemma {:induction false} AddOutsSound(b: Built, txs: seq<Tx>, pos: map<Hash, nat>, tx: Tx, i: nat)
    requires Place(txs, pos, tx) && OfTx(tx.hash) in b.nodes && i <= |tx.outMsgs|
    requires Sound(b.nodes, txs, pos, pos[tx.hash] + 1) && Leads(b, pos, tx, i)
    ensures var c := AddOuts(b, tx, i);
      c.Some? ==> Sound(c.value.nodes, txs, pos, pos[tx.hash] + 1) && Leads(c.value, pos, tx, |tx.outMsgs|)
    decreases |tx.outMsgs| - i
  {
    if i < |tx.outMsgs| {
      AddOutSound(b, txs, pos, tx, i);
      var c := AddOut(b, tx, i, tx.outMsgs[i]);
      if c.Some? { AddOutsSound(c.value, txs, pos, tx, i + 1); }
    }
  }

  /** The known messages lead to the first `n` transactions. */
  ghost predicate LeadsBelow(b: Built, pos: map<Hash, nat>, n: nat)
  {
    forall h :: h in b.msgTx ==> b.msgTx[h] in pos && pos[b.msgTx[h]] < n
  }

  lemma {:induction false} OpenSound(b: Built, txs: seq<Tx>, pos: map<Hash, nat>, tx: Tx)
    requires Place(txs, pos, tx)
    requires Sound(b.nodes, txs, pos, pos[tx.hash]) && LeadsBelow(b, pos, pos[tx.hash])
    ensures Sound(Open(b, tx).nodes, txs, pos, pos[tx.hash] + 1) && Leads(Open(b, tx), pos, tx, 0)
  {
    var nodes := Open(b, tx).nodes;
    assert OfTx(tx.hash) !in b.nodes;
    forall id, i | id in nodes && 0 <= i < |nodes[id].next| ensures LinkOk(nodes, txs, pos, id, nodes[id].next[i]) {
      assert LinkOk(b.nodes, txs, pos, id, b.nodes[id].next[i]);
    }
  }

  lemma {:induction false} AddTxSound(b: Built, txs: seq<Tx>, pos: map<Hash, nat>, tx: Tx)
    requires Place(txs, pos, tx)
    requires Sound(b.nodes, txs, pos, pos[tx.hash]) && LeadsBelow(b, pos, pos[tx.hash])
    ensures var c := AddTx(b, tx);
      c.Some? ==> Sound(c.value.nodes, txs, pos, pos[tx.hash] + 1) && LeadsBelow(c.value, pos, pos[tx.hash] + 1)
  {
    assert OfTx(tx.hash) !in b.nodes;
    OpenSound(b, txs, pos, tx);
    AddOutsSound(Open(b, tx), txs, pos, tx, 0);
  }

  lemma {:induction false} AddTxsSound(b: Built, pos: map<Hash, nat>, txs: seq<Tx>, n: nat)
    requires n <= |txs| && Placed(txs, pos)
    requires Sound(b.nodes, txs, pos, n) && LeadsBelow(b, pos, n)
    ensures var c := AddTxs(b, txs, n); c.Some? ==> Sound(c.value.nodes, txs, pos, |txs|)
    decreases |txs| - n
  {
    if n < |txs| {
      AddTxSound(b, txs, pos, txs[n]);
      var c := AddTx(b, txs[n]);
      if c.Some? { AddTxsSound(c.value, pos, txs, n + 1); }
    }
  }

  ghost function Parents(nodes: Nodes): (r: map<NodeId, NodeId>)
  {
    map id | id in nodes && nodes[id].prev.Some? :: nodes[id].prev.value
  }

  /** The nodes as a graph; the ranks show that it has no cycle. */
  ghost function ShapeOf(nodes: Nodes, rank: map<NodeId, nat>, top: nat): (s: Shape<NodeId>)
  {
    Shape(map id | id in nodes :: nodes[id].next, Parents(nodes), rank, top)
  }

  ghost function Ranks(nodes: Nodes, pos: map<Hash, nat>): (r: map<NodeId, nat>)
  {
    map id | id in nodes :: Rank(pos, id)
  }

  lemma {:induction false} SoundIsRanked(nodes: Nodes, txs: seq<Tx>, pos: map<Hash, nat>, n: nat)
    requires Sound(nodes, txs, pos, n) && (forall j :: 0 <= j < |txs| ==> NoSelfLinks(txs[j]))
    ensures Ranked(ShapeOf(nodes, Ranks(nodes, pos), n + 1))
  {
    var s := ShapeOf(nodes, Ranks(nodes, pos), n + 1);
    forall id, i | id in s.kids && 0 <= i < |s.kids[id]|
      ensures s.kids[id][i] in s.kids && s.rank[s.kids[id][i]] < s.rank[id]
    {
      assert LinkOk(nodes, txs, pos, id, nodes[id].next[i]);
    }
  }

  /** If no transaction emits a message that leads to itself, the places rank the nodes. */
  lemma {:induction false} BuildRanked(txs: seq<Tx>, pos: map<Hash, nat>)
    requires Placed(txs, pos) && (forall j :: 0 <= j < |txs| ==> NoSelfLinks(txs[j]))
    ensures var c := AddTxs(START, txs, 0);
      c.Some? ==> Ranked(ShapeOf(c.value.nodes, Ranks(c.value.nodes, pos), |txs| + 1))
  {
    AddTxsSound(START, pos, txs, 0);
    var c := AddTxs(START, txs, 0);
    if c.Some? { SoundIsRanked(c.value.nodes, txs, pos, |txs|); }
  }

  // ----- and only then -----

  /** The node links to itself. */
  ghost predicate Loops(nodes: Nodes, id: NodeId)
  {
    id in nodes && id in nodes[id].next
  }

  lemma {:induction false} LinkKeepsLoop(nodes: Nodes, from: NodeId, to: NodeId, id: NodeId)
    requires from in nodes && to in nodes && (Loops(nodes, id) || (from == id && to == id))
    ensures Loops(Link(nodes, from, to), id)
  {
    var next := Link(nodes, from, to)[id].next;
    if from == id {
      assert next == nodes[id].next + [to];
      assert next[|next| - 1] == to;
    } else {
      assert next == nodes[id].next;
    }
  }

  lemma {:induction false} OutsKeepLoop(b: Built, tx: Tx, i: nat, id: NodeId)
    requires OfTx(tx.hash) in b.nodes && i <= |tx.outMsgs| && id.OfTx? && Loops(b.nodes, id)
    ensures var c := AddOuts(b, tx, i); c.Some? ==> Loops(c.value.nodes, id)
    decreases |tx.outMsgs| - i
  {
    if i < |tx.outMsgs| {
      var m, me := tx.outMsgs[i], OfTx(tx.hash);
      var c := AddOut(b, tx, i, m);
      if m.destination.None? {
        LinkKeepsLoop(b.nodes[OfLog(tx.hash, i) := Node(tx, Some(m), false, [], None)], me, OfLog(tx.hash, i), id);
      } else if Target(b, m) in b.nodes {
        LinkKeepsLoop(b.nodes, me, Target(b, m), id);
      }
      if c.Some? { OutsKeepLoop(c.value, tx, i + 1, id); }
    }
  }

  lemma {:induction false} TxsKeepLoop(b: Built, txs: seq<Tx>, n: nat, id: NodeId)
    requires n <= |txs| && id.OfTx? && Loops(b.nodes, id)
    ensures var c := AddTxs(b, txs, n); c.Some? ==> Loops(c.value.nodes, id)
    decreases |txs| - n
  {
    if n < |txs| {
      var c := AddTx(b, txs[n]);
      if OfTx(txs[n].hash) !in b.nodes { OutsKeepLoop(Open(b, txs[n]), txs[n], 0, id); }
      if c.Some? { TxsKeepLoop(c.value, txs, n + 1, id); }
    }
  }

  /** The messages that the transaction has consumed or logged so far lead to itself. */
  ghost predicate LeadsHome(b: Built, tx: Tx, n: int)
  {
    forall h :: OwnHash(tx, h, n) ==> h in b.msgTx && b.msgTx[h] == tx.hash
  }

  /** The `i`-th message has a destination and leads to its own sender. */
  predicate Returns(tx: Tx, i: int)
    requires 0 <= i < |tx.outMsgs|
  {
    tx.outMsgs[i].destination.Some? && OwnHash(tx, tx.outMsgs[i].hash, i)
  }

  lemma {:induction false} OutsMakeLoop(b: Built, tx: Tx, i: nat, k: nat)
    requires OfTx(tx.hash) in b.nodes && i <= k < |tx.outMsgs| && LeadsHome(b, tx, i) && Returns(tx, k)
    ensures var c := AddOuts(b, tx, i); c.Some? ==> Loops(c.value.nodes, OfTx(tx.hash))
    decreases k - i
  {
    var m, me := tx.outMsgs[i], OfTx(tx.hash);
    var c := AddOut(b, tx, i, m);
    if i == k {
      LinkKeepsLoop(b.nodes, me, me, me);
      OutsKeepLoop(c.value, tx, i + 1, me);
    } else if c.Some? {
      OutsMakeLoop(c.value, tx, i + 1, k);
    }
  }

  lemma {:induction false} TxsMakeLoop(b: Built, txs: seq<Tx>, pos: map<Hash, nat>, n: nat, j: nat, k: nat)
    requires n <= j < |txs| && Placed(txs, pos) && k < |txs[j].outMsgs| && Returns(txs[j], k)
    requires forall id :: id in b.nodes && id.OfTx? ==> id.tx in pos && pos[id.tx] < n
    ensures var c := AddTxs(b, txs, n); c.Some? ==> Loops(c.value.nodes, OfTx(txs[j].hash))
    decreases j - n
  {
    var c := AddTx(b, txs[n]);
    if n == j {
      OutsMakeLoop(Open(b, txs[n]), txs[n], 0, k);
      if c.Some? { TxsKeepLoop(c.value, txs, n + 1, OfTx(txs[n].hash)); }
    } else if c.Some? {
      OutsAddNoTx(Open(b, txs[n]), txs[n], 0);
      TxsMakeLoop(c.value, txs, pos, n + 1, j, k);
    }
  }

  lemma {:induction false} OutsAddNoTx(b: Built, tx: Tx, i: nat)
    requires OfTx(tx.hash) in b.nodes && i <= |tx.outMsgs|
    ensures var c := AddOuts(b, tx, i); c.Some? ==> forall id :: id in c.value.nodes && id.OfTx? ==> id in b.nodes
    decreases |tx.outMsgs| - i
  {
    if i < |tx.outMsgs| {
      var c := AddOut(b, tx, i, tx.outMsgs[i]);
      if c.Some? { OutsAddNoTx(c.value, tx, i + 1); }
    }
  }

  // ----- exactly when -----

  /** The rank never grows along a walk. */
  lemma {:induction false} WalkFalls(nodes: Nodes, txs: seq<Tx>, pos: map<Hash, nat>, n: nat, p: seq<NodeId>,
                                     a: NodeId, b: NodeId)
    requires Sound(nodes, txs, pos, n) && IsWalk(Links(nodes), p, a, b)
    ensures Rank(pos, b) <= Rank(pos, a)
    decreases |p|
  {
    if |p| > 1 {
      var k := |p| - 2;
      WalkPart(Links(nodes), p, a, b, 0, k);
      WalkFalls(nodes, txs, pos, n, p[0..k + 1], a, p[k]);
      assert Step(Links(nodes), p[k], p[k + 1]);
      var i :| 0 <= i < |nodes[p[k]].next| && nodes[p[k]].next[i] == b;
      assert LinkOk(nodes, txs, pos, p[k], b);
    }
  }

  lemma {:induction false} CycleIsHoming(nodes: Nodes, txs: seq<Tx>, pos: map<Hash, nat>, n: nat, id: NodeId)
    requires Sound(nodes, txs, pos, n) && OnCycle(Links(nodes), id)
    ensures Homing(txs, pos, id)
  {
    var p :| |p| > 1 && IsWalk(Links(nodes), p, id, id);
    assert Step(Links(nodes), p[0], p[0 + 1]);
    var i :| 0 <= i < |nodes[id].next| && nodes[id].next[i] == p[1];
    assert LinkOk(nodes, txs, pos, id, p[1]);
    WalkPart(Links(nodes), p, id, id, 1, |p| - 1);
    WalkFalls(nodes, txs, pos, n, p[1..|p|], p[1], id);
  }

  lemma {:induction false} HomingIsCycle(txs: seq<Tx>, pos: map<Hash, nat>, id: NodeId)
    requires Placed(txs, pos) && AddTxs(START, txs, 0).Some?
    requires Homing(txs, pos, id)
    ensures OnCycle(Links(AddTxs(START, txs, 0).value.nodes), id)
  {
    var k := ReturnFound(txs[pos[id.tx]]);
    TxsMakeLoop(START, txs, pos, 0, pos[id.tx], k);
    assert IsWalk(Links(AddTxs(START, txs, 0).value.nodes), [id, id], id, id);
  }

  /** A node is on a cycle if and only if it is a transaction that emits a message that leads to itself. */
  lemma {:induction false} CycleExactly(txs: seq<Tx>, pos: map<Hash, nat>, j: nat)
    requires Placed(txs, pos) && AddTxs(START, txs, 0).Some? && j < |txs|
    ensures OnCycle(Links(AddTxs(START, txs, 0).value.nodes), OfTx(txs[j].hash)) <==> !NoSelfLinks(txs[j])
  {
    var id := OfTx(txs[j].hash);
    AddTxsSound(START, pos, txs, 0);
    if OnCycle(Links(AddTxs(START, txs, 0).value.nodes), id) {
      CycleIsHoming(AddTxs(START, txs, 0).value.nodes, txs, pos, |txs|, id);
    }
    if !NoSelfLinks(txs[j]) { HomingIsCycle(txs, pos, id); }
  }

  /** No cycle can be reached from a node if and only if no transaction that can be emits a message that leads to
      itself. */
  lemma {:induction false} AcyclicExactly(txs: seq<Tx>, pos: map<Hash, nat>, root: NodeId)
    requires Placed(txs, pos) && AddTxs(START, txs, 0).Some?
    ensures var links := Links(AddTxs(START, txs, 0).value.nodes);
      NoCycleFrom(links, root) <==>
        forall j :: 0 <= j < |txs| && Reaches(links, root, OfTx(txs[j].hash)) ==> NoSelfLinks(txs[j])
  {
    var nodes := AddTxs(START, txs, 0).value.nodes;
    AddTxsSound(START, pos, txs, 0);
    forall j | 0 <= j < |txs| ensures OnCycle(Links(nodes), OfTx(txs[j].hash)) <==> !NoSelfLinks(txs[j]) {
      CycleExactly(txs, pos, j);
    }
    if !NoCycleFrom(Links(nodes), root) {
      var id :| Reaches(Links(nodes), root, id) && OnCycle(Links(nodes), id);
      CycleIsHoming(nodes, txs, pos, |txs|, id);
    }
  }

  lemma {:induction false} ReturnFound(tx: Tx) returns (k: nat)
    requires !NoSelfLinks(tx)
    ensures k < |tx.outMsgs| && Returns(tx, k)
  {
    var outs := tx.outMsgs;
    if tx.inMsg.Some? {
      var h := tx.inMsg.value.hash;
      if i :| 0 <= i < |outs| && outs[i].destination.Some? && outs[i].hash == h {
        return i;
      }
    }
    var i, j :| 0 <= j < i < |outs| && outs[i].destination.Some? && outs[j].destination.None?
      && outs[i].hash == outs[j].hash;
    k := i;
  }
}
