/** The running counter of a graph against the sum of its members' open ends: kept by every edge that merges nothing. */
module DetectorCounters {
  import opened Basics
  import opened Detector
  import opened Sums

  ghost function Opens(txs: map<Hash, Slot>): (r: map<Hash, int>)
  {
    map h | h in txs :: txs[h].open
  }

  /** The counter equals the sum, the equation that the source's debug check prints a complaint about. */
  ghost predicate Balanced(g: Graph)
  {
    g.edgesLeft == Sum(Opens(g.txs))
  }

  lemma {:induction false} OpensUpdate(txs: map<Hash, Slot>, h: Hash, s: Slot)
    ensures Opens(txs[h := s]) == Opens(txs)[h := s.open]
  {
  }

  lemma {:induction false} AddTxBalanced(g: Graph, tx: Tx)
    requires Balanced(g)
    ensures Balanced(AddTx(g, tx))
  {
    if tx.hash !in g.txs {
      OpensUpdate(g.txs, tx.hash, Slot(Some(tx), OrdCount(tx.messages)));
      SumInsert(Opens(g.txs), tx.hash, OrdCount(tx.messages));
    }
  }

  lemma {:induction false} CloseBalanced(txs: map<Hash, Slot>, h: Hash)
    requires h in txs
    ensures Sum(Opens(txs[h := CloseOne(txs[h])])) == Sum(Opens(txs)) - 1
  {
    OpensUpdate(txs, h, CloseOne(txs[h]));
    SumUpdate(Opens(txs), h, txs[h].open - 1);
  }

  /** Adding an edge keeps the counter equal to the sum, whichever of its ends were there before. */
  lemma {:induction false} AddEdgeBalanced(g: Graph, left: Tx, right: Tx)
    requires Balanced(g)
    ensures Balanced(AddEdge(g, left, right))
  {
    AddTxBalanced(g, left);
    AddTxBalanced(AddTx(g, left), right);
    var h := AddTx(AddTx(g, left), right);
    CloseBalanced(h.txs, left.hash);
    CloseBalanced(h.txs[left.hash := CloseOne(h.txs[left.hash])], right.hash);
  }

  ghost predicate AllBalanced(s: State)
  {
    && (forall h :: h in s.events ==> Balanced(s.events[h]))
    && (forall i :: 0 <= i < |s.emitted| ==> Balanced(s.emitted[i]))
  }

  lemma {:induction false} CheckBalanced(s: State, g: Graph)
    requires AllBalanced(s) && Balanced(g)
    ensures AllBalanced(CheckFinished(s, g))
  {
  }

  lemma {:induction false} EmptyBalanced()
    ensures Balanced(EMPTY)
  {
    assert Opens(EMPTY.txs) == map[];
  }

  lemma {:induction false} EdgeBalanced(s: State, left: Tx, right: Tx)
    requires AllBalanced(s) && !(left.hash in s.events && right.hash in s.events)
    ensures AllBalanced(OnEdge(s, left, right))
  {
    EmptyBalanced();
    if left.hash in s.events {
      AddEdgeBalanced(s.events[left.hash], left, right);
      CheckBalanced(s, AddEdge(s.events[left.hash], left, right));
    } else if right.hash in s.events {
      AddEdgeBalanced(s.events[right.hash], left, right);
      CheckBalanced(s, AddEdge(s.events[right.hash], left, right));
    } else {
      AddEdgeBalanced(EMPTY, left, right);
      var t := s.(active := s.active + 1);
      assert AllBalanced(t);
      CheckBalanced(t, AddEdge(EMPTY, left, right));
    }
  }

  lemma {:induction false} MergesWhenBothKnown(s: State, left: Tx, right: Tx)
    ensures OnEdge(s, left, right).merges == s.merges + if left.hash in s.events && right.hash in s.events then 1 else 0
  {
  }

  /** A step that does not merge keeps every counter equal to its sum. */
  lemma {:induction false} StepBalanced(s: State, tx: Tx, m: Message)
    requires AllBalanced(s) && OnMessage(s, tx, m).merges == s.merges
    ensures AllBalanced(OnMessage(s, tx, m))
  {
    var other := Other(EndOf(m));
    if other in s.edges {
      var tx2 := s.edges[other];
      var t := s.(edges := s.edges - {other}, found := s.found + 1);
      var left, right := if m.isInput then tx2 else tx, if m.isInput then tx else tx2;
      assert OnMessage(s, tx, m) == OnEdge(t, left, right);
      MergesWhenBothKnown(t, left, right);
      assert AllBalanced(t);
      EdgeBalanced(t, left, right);
    }
  }
}
