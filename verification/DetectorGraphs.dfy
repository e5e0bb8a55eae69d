/** What an event graph means, and that growing it by a matched message keeps that meaning. */
module DetectorGraphs {
  import opened Basics
  import opened Components
  import opened Detector

  ghost function OrdEndsOf(ms: seq<Message>): (r: set<End>)
  {
    set m | m in ms && GetMessageType(m) == Ord :: EndOf(m)
  }

  ghost function OrdEnds(tx: Tx): (r: set<End>)
  {
    OrdEndsOf(tx.messages)
  }

  ghost predicate DistinctEnds(ms: seq<Message>)
  {
    forall i, j :: 0 <= i < j < |ms| ==> EndOf(ms[i]) != EndOf(ms[j])
  }

  lemma {:induction false} OrdCountIsSize(ms: seq<Message>)
    requires DistinctEnds(ms)
    ensures OrdCount(ms) == |OrdEndsOf(ms)|
  {
    if ms != [] {
      var n := |ms| - 1;
      OrdCountIsSize(ms[..n]);
      var before := OrdEndsOf(ms[..n]);
      assert forall m :: m in ms <==> m in ms[..n] || m == ms[n];
      if GetMessageType(ms[n]) == Ord {
        assert OrdEndsOf(ms) == before + {EndOf(ms[n])};
        assert EndOf(ms[n]) !in before;
      } else {
        assert OrdEndsOf(ms) == before;
      }
    }
  }

  // ----- the history: processed ordinary ends, and the transactions they belong to -----

  /** Every processed end belongs to a known transaction, and no two transactions share an end. */
  ghost predicate World(ends: map<End, Tx>, known: map<Hash, Tx>)
  {
    && (forall h :: h in known ==> known[h].hash == h && DistinctEnds(known[h].messages))
    && (forall h, k :: h in known && k in known && h != k ==> OrdEnds(known[h]) !! OrdEnds(known[k]))
    && (forall e :: e in ends ==> ends[e].hash in known && known[ends[e].hash] == ends[e] && e in OrdEnds(ends[e]))
  }

  ghost predicate Matched(ends: map<End, Tx>, e: End)
  {
    e in ends && Other(e) in ends
  }

  ghost function Unmatched(ends: map<End, Tx>, tx: Tx): (r: set<End>)
  {
    set e | e in OrdEnds(tx) && !Matched(ends, e)
  }

  /** Sender and receiver of every message with both ends processed. */
  ghost function Links(ends: map<End, Tx>): (r: set<(Hash, Hash)>)
  {
    set e | e in ends && !e.isInput && Other(e) in ends :: (ends[e].hash, ends[Other(e)].hash)
  }

  ghost function LinksFrom(ends: map<End, Tx>, keys: set<Hash>): (r: set<(Hash, Hash)>)
  {
    set l | l in Links(ends) && l.0 in keys
  }

  /** The ordinary ends of the given transactions that still wait for their other end. */
  ghost function Open(ends: map<End, Tx>, known: map<Hash, Tx>, keys: set<Hash>): (r: set<End>)
    requires keys <= known.Keys
  {
    set h, e | h in keys && e in Unmatched(ends, known[h]) :: e
  }

  ghost function SlotFor(ends: map<End, Tx>, tx: Tx): (r: Slot)
  {
    var n := |Unmatched(ends, tx)|;
    Slot(if n == 0 then None else Some(tx), n)
  }

  /** The graph is a connected component of the links so far, with exact slots, edges and counter. */
  ghost predicate GraphOk(ends: map<End, Tx>, known: map<Hash, Tx>, g: Graph)
  {
    && g.txs.Keys <= known.Keys
    && (forall h :: h in g.txs ==> g.txs[h] == SlotFor(ends, known[h]))
    && g.edgesLeft == |Open(ends, known, g.txs.Keys)|
    && multiset(g.edges) == multiset(LinksFrom(ends, g.txs.Keys))
    && IsComponent(Links(ends), g.txs.Keys)
  }

  // ----- one more processed end -----

  /** An end whose counterpart is still missing changes nothing but the pending ends. */
  lemma {:induction false} LoneEnd(ends: map<End, Tx>, tx: Tx, e: End)
    requires e !in ends && Other(e) !in ends
    ensures Links(ends[e := tx]) == Links(ends)
    ensures forall t :: Unmatched(ends[e := tx], t) == Unmatched(ends, t)
  {
    var after := ends[e := tx];
    forall x ensures Matched(after, x) == Matched(ends, x) {
      assert Other(Other(x)) == x;
    }
    assert Links(after) == Links(ends);
  }

  lemma {:induction false} LoneEndGraph(ends: map<End, Tx>, known: map<Hash, Tx>, tx: Tx, e: End, g: Graph)
    requires e !in ends && Other(e) !in ends && GraphOk(ends, known, g)
    ensures GraphOk(ends[e := tx], known, g)
  {
    LoneEnd(ends, tx, e);
    assert Open(ends[e := tx], known, g.txs.Keys) == Open(ends, known, g.txs.Keys);
    assert LinksFrom(ends[e := tx], g.txs.Keys) == LinksFrom(ends, g.txs.Keys);
  }

  /** The receiving end of a message whose sending end is waiting: one new link, two ends matched. */
  ghost predicate Completes(ends: map<End, Tx>, known: map<Hash, Tx>, tx: Tx, e: End)
  {
    && World(ends, known) && e.isInput && e !in ends && Other(e) in ends
    && tx.hash in known && known[tx.hash] == tx && e in OrdEnds(tx)
    && ends[Other(e)].hash != tx.hash
    && Unmatched(ends, tx) == OrdEnds(tx)
  }

  lemma {:induction false} NewLink(ends: map<End, Tx>, known: map<Hash, Tx>, tx: Tx, e: End)
    requires Completes(ends, known, tx, e)
    ensures Links(ends[e := tx]) == Links(ends) + {(ends[Other(e)].hash, tx.hash)}
    ensures forall l :: l in Links(ends) ==> l.0 != tx.hash && l.1 != tx.hash
  {
    var after := ends[e := tx];
    assert Other(Other(e)) == e;
    forall x | x in ends && !x.isInput && Other(x) in ends
      ensures ends[x].hash != tx.hash && ends[Other(x)].hash != tx.hash
    {
      assert Other(Other(x)) == x;
      assert Matched(ends, x) && Matched(ends, Other(x));
      assert ends[x].hash == tx.hash ==> x in OrdEnds(tx) && x in Unmatched(ends, tx);
      assert ends[Other(x)].hash == tx.hash ==> Other(x) in OrdEnds(tx) && Other(x) in Unmatched(ends, tx);
    }
    forall l | l in Links(after) ensures l in Links(ends) + {(ends[Other(e)].hash, tx.hash)} {
      var x :| x in after && !x.isInput && Other(x) in after && l == (after[x].hash, after[Other(x)].hash);
      if Other(x) == e {
        assert x == Other(e);
      }
    }
    assert (after[Other(e)].hash, after[e].hash) in Links(after);
    forall l | l in Links(ends) ensures l in Links(after) {
      var x :| x in ends && !x.isInput && Other(x) in ends && l == (ends[x].hash, ends[Other(x)].hash);
      assert x in after;
    }
  }

  lemma {:induction false} NowMatched(ends: map<End, Tx>, known: map<Hash, Tx>, tx: Tx, e: End)
    requires Completes(ends, known, tx, e)
    ensures var after := ends[e := tx]; var tx2 := ends[Other(e)];
      && Unmatched(after, tx) == Unmatched(ends, tx) - {e} && e in Unmatched(ends, tx)
      && Unmatched(after, tx2) == Unmatched(ends, tx2) - {Other(e)} && Other(e) in Unmatched(ends, tx2)
      && forall h :: h in known && h != tx.hash && h != tx2.hash ==>
          Unmatched(after, known[h]) == Unmatched(ends, known[h])
  {
    var after := ends[e := tx];
    var tx2 := ends[Other(e)];
    assert Other(Other(e)) == e;
    forall x ensures Matched(after, x) <==> Matched(ends, x) || x == e || x == Other(e) {
      assert Other(Other(x)) == x;
    }
    assert e !in OrdEnds(tx2) && Other(e) !in OrdEnds(tx);
    forall h | h in known && h != tx.hash && h != tx2.hash
      ensures Unmatched(after, known[h]) == Unmatched(ends, known[h])
    {
      assert e !in OrdEnds(known[h]) && Other(e) !in OrdEnds(known[h]);
    }
  }

  // ----- growing a graph -----

  lemma {:induction false} CloseSlot(ends: map<End, Tx>, after: map<End, Tx>, tx: Tx, e: End)
    requires e in Unmatched(ends, tx) && Unmatched(after, tx) == Unmatched(ends, tx) - {e}
    ensures SlotFor(after, tx) == CloseOne(SlotFor(ends, tx))
  {
  }

  lemma {:induction false} GrowSlots(ends: map<End, Tx>, known: map<Hash, Tx>, g: Graph, tx: Tx, e: End)
    requires Completes(ends, known, tx, e) && GraphOk(ends, known, g)
    requires ends[Other(e)].hash in g.txs && tx.hash !in g.txs
    ensures var r := AddEdge(g, ends[Other(e)], tx);
      forall h :: h in r.txs ==> h in known && r.txs[h] == SlotFor(ends[e := tx], known[h])
  {
    var after, tx2 := ends[e := tx], ends[Other(e)];
    NowMatched(ends, known, tx, e);
    OrdCountIsSize(tx.messages);
    CloseSlot(ends, after, tx, e);
    CloseSlot(ends, after, tx2, Other(e));
    GrownSlots(g, tx2, tx);
  }

  /** What an edge to a newcomer does to the slots. */
  lemma {:induction false} GrownSlots(g: Graph, tx2: Tx, tx: Tx)
    requires tx2.hash in g.txs && tx.hash !in g.txs
    ensures var r := AddEdge(g, tx2, tx);
      && r.txs[tx2.hash] == CloseOne(g.txs[tx2.hash])
      && r.txs[tx.hash] == CloseOne(Slot(Some(tx), OrdCount(tx.messages)))
      && forall h :: h in r.txs && h != tx.hash && h != tx2.hash ==> h in g.txs && r.txs[h] == g.txs[h]
  {
  }

  lemma {:induction false} OpenAfter(ends: map<End, Tx>, known: map<Hash, Tx>, keys: set<Hash>, tx: Tx, e: End)
    requires Completes(ends, known, tx, e) && keys <= known.Keys
    requires ends[Other(e)].hash in keys && tx.hash !in keys
    ensures Open(ends[e := tx], known, keys + {tx.hash}) == Open(ends, known, keys) + OrdEnds(tx) - {e, Other(e)}
  {
    var after, tx2 := ends[e := tx], ends[Other(e)];
    var before := Open(ends, known, keys);
    var more := Open(after, known, keys + {tx.hash});
    NowMatched(ends, known, tx, e);
    OpenApart(ends, known, keys, tx);
    forall x | x in before + OrdEnds(tx) - {e, Other(e)} ensures x in more {
      StaysOpen(ends, after, known, keys, tx, e, x);
    }
    forall x | x in more ensures x in before + OrdEnds(tx) - {e, Other(e)} {
      var h :| h in keys + {tx.hash} && x in Unmatched(after, known[h]);
      assert x in Unmatched(ends, known[h]);
      assert !Matched(after, x) && Matched(after, e) && Matched(after, Other(e));
    }
  }

  lemma {:induction false} StaysOpen(ends: map<End, Tx>, after: map<End, Tx>, known: map<Hash, Tx>, keys: set<Hash>,
                                     tx: Tx, e: End, x: End)
    requires Completes(ends, known, tx, e) && keys <= known.Keys && after == ends[e := tx]
    requires ends[Other(e)].hash in keys && tx.hash !in keys
    requires x in Open(ends, known, keys) + OrdEnds(tx) - {e, Other(e)}
    ensures x in Open(after, known, keys + {tx.hash})
  {
    NowMatched(ends, known, tx, e);
    if x in OrdEnds(tx) {
      assert x in Unmatched(after, known[tx.hash]);
    } else {
      var h :| h in keys && x in Unmatched(ends, known[h]);
      assert x in Unmatched(after, known[h]);
    }
  }

  lemma {:induction false} OpenApart(ends: map<End, Tx>, known: map<Hash, Tx>, keys: set<Hash>, tx: Tx)
    requires World(ends, known) && keys <= known.Keys && tx.hash in known && known[tx.hash] == tx && tx.hash !in keys
    ensures Open(ends, known, keys) !! OrdEnds(tx)
  {
    forall x | x in Open(ends, known, keys) ensures x !in OrdEnds(tx) {
      var h :| h in keys && x in Unmatched(ends, known[h]);
      assert OrdEnds(known[h]) !! OrdEnds(known[tx.hash]);
    }
  }

  lemma {:induction false} OpenGrows(ends: map<End, Tx>, known: map<Hash, Tx>, keys: set<Hash>, tx: Tx, e: End)
    requires Completes(ends, known, tx, e) && keys <= known.Keys
    requires ends[Other(e)].hash in keys && tx.hash !in keys
    ensures |Open(ends[e := tx], known, keys + {tx.hash})| == |Open(ends, known, keys)| + |OrdEnds(tx)| - 2
  {
    OpenAfter(ends, known, keys, tx, e);
    OpenApart(ends, known, keys, tx);
    NowMatched(ends, known, tx, e);
    assert Other(e) in Unmatched(ends, known[ends[Other(e)].hash]);
    assert Other(e) in Open(ends, known, keys);
    TwoFewer(Open(ends, known, keys), OrdEnds(tx), Other(e), e);
  }

  lemma {:induction false} TwoFewer(a: set<End>, b: set<End>, x: End, y: End)
    requires a !! b && x in a && y in b
    ensures |a + b - {y, x}| == |a| + |b| - 2
  {
    assert a + b - {y, x} == (a - {x}) + (b - {y});
  }

  lemma {:induction false} GrowEdges(ends: map<End, Tx>, known: map<Hash, Tx>, keys: set<Hash>, tx: Tx, e: End)
    requires Completes(ends, known, tx, e) && ends[Other(e)].hash in keys && tx.hash !in keys
    ensures var l := (ends[Other(e)].hash, tx.hash);
      && LinksFrom(ends[e := tx], keys + {tx.hash}) == LinksFrom(ends, keys) + {l}
      && l !in LinksFrom(ends, keys)
  {
    NewLink(ends, known, tx, e);
  }

  lemma {:induction false} GrowComponent(links: set<(Hash, Hash)>, keys: set<Hash>, a: Hash, b: Hash)
    requires IsComponent(links, keys) && a in keys && b !in keys
    requires forall l :: l in links ==> l.0 != b && l.1 != b
    ensures IsComponent(links + {(a, b)}, keys + {b})
  {
    var more := links + {(a, b)};
    forall x | x in keys ensures Connected(more, x, b) && Connected(more, b, x) {
      ConnectedMore(links, more, x, a);
      ConnectedLink(more, a, b);
      ConnectedJoin(more, x, a, b);
      ConnectedBack(more, x, b);
    }
    ConnectedSelf(more, b);
    AllConnectedMore(links, more, keys);
  }

  /** The graph of the sender, grown by the new link, means the same about the new history. */
  lemma {:induction false} Grow(ends: map<End, Tx>, known: map<Hash, Tx>, g: Graph, tx: Tx, e: End)
    requires Completes(ends, known, tx, e) && GraphOk(ends, known, g)
    requires ends[Other(e)].hash in g.txs && tx.hash !in g.txs
    ensures GraphOk(ends[e := tx], known, AddEdge(g, ends[Other(e)], tx))
  {
    var after, tx2 := ends[e := tx], ends[Other(e)];
    AddEdgeParts(g, tx2, tx);
    GrowSlots(ends, known, g, tx, e);
    GrowCounter(ends, known, g, tx, e);
    GrowShape(ends, known, g, tx, e);
  }

  lemma {:induction false} AddEdgeParts(g: Graph, left: Tx, right: Tx)
    requires left.hash in g.txs && right.hash !in g.txs
    ensures var r := AddEdge(g, left, right);
      && r.txs.Keys == g.txs.Keys + {right.hash}
      && r.edges == g.edges + [(left.hash, right.hash)]
      && r.edgesLeft == g.edgesLeft + OrdCount(right.messages) - 2
  {
  }

  lemma {:induction false} GrowCounter(ends: map<End, Tx>, known: map<Hash, Tx>, g: Graph, tx: Tx, e: End)
    requires Completes(ends, known, tx, e) && GraphOk(ends, known, g)
    requires ends[Other(e)].hash in g.txs && tx.hash !in g.txs
    ensures var r := AddEdge(g, ends[Other(e)], tx);
      r.txs.Keys <= known.Keys && r.edgesLeft == |Open(ends[e := tx], known, r.txs.Keys)|
  {
    AddEdgeParts(g, ends[Other(e)], tx);
    OpenGrows(ends, known, g.txs.Keys, tx, e);
    OrdCountIsSize(tx.messages);
  }

  lemma {:induction false} GrowShape(ends: map<End, Tx>, known: map<Hash, Tx>, g: Graph, tx: Tx, e: End)
    requires Completes(ends, known, tx, e) && GraphOk(ends, known, g)
    requires ends[Other(e)].hash in g.txs && tx.hash !in g.txs
    ensures var r := AddEdge(g, ends[Other(e)], tx); var after := ends[e := tx];
      && multiset(r.edges) == multiset(LinksFrom(after, r.txs.Keys))
      && IsComponent(Links(after), r.txs.Keys)
  {
    AddEdgeParts(g, ends[Other(e)], tx);
    GrowEdges(ends, known, g.txs.Keys, tx, e);
    GrowConnected(ends, known, g.txs.Keys, tx, e);
  }

  lemma {:induction false} GrowConnected(ends: map<End, Tx>, known: map<Hash, Tx>, keys: set<Hash>, tx: Tx, e: End)
    requires Completes(ends, known, tx, e) && IsComponent(Links(ends), keys)
    requires ends[Other(e)].hash in keys && tx.hash !in keys
    ensures IsComponent(Links(ends[e := tx]), keys + {tx.hash})
  {
    NewLink(ends, known, tx, e);
    GrowComponent(Links(ends), keys, ends[Other(e)].hash, tx.hash);
  }

  /** A graph without the two transactions is not affected. */
  lemma {:induction false} SameOpen(ends: map<End, Tx>, after: map<End, Tx>, known: map<Hash, Tx>, keys: set<Hash>)
    requires keys <= known.Keys && forall h :: h in keys ==> Unmatched(after, known[h]) == Unmatched(ends, known[h])
    ensures Open(after, known, keys) == Open(ends, known, keys)
  {
    forall x ensures x in Open(after, known, keys) <==> x in Open(ends, known, keys) {
      if h :| h in keys && x in Unmatched(after, known[h]) { assert x in Unmatched(ends, known[h]); }
      if h :| h in keys && x in Unmatched(ends, known[h]) { assert x in Unmatched(after, known[h]); }
    }
  }

  lemma {:induction false} UndisturbedOpen(ends: map<End, Tx>, known: map<Hash, Tx>, keys: set<Hash>, tx: Tx, e: End)
    requires Completes(ends, known, tx, e) && keys <= known.Keys && ends[Other(e)].hash !in keys && tx.hash !in keys
    ensures Open(ends[e := tx], known, keys) == Open(ends, known, keys)
    ensures forall h :: h in keys ==> SlotFor(ends[e := tx], known[h]) == SlotFor(ends, known[h])
  {
    NowMatched(ends, known, tx, e);
    SameOpen(ends, ends[e := tx], known, keys);
  }

  lemma {:induction false} UndisturbedLinks(ends: map<End, Tx>, known: map<Hash, Tx>, keys: set<Hash>, tx: Tx, e: End)
    requires Completes(ends, known, tx, e) && ends[Other(e)].hash !in keys && tx.hash !in keys
    requires IsComponent(Links(ends), keys)
    ensures LinksFrom(ends[e := tx], keys) == LinksFrom(ends, keys) && IsComponent(Links(ends[e := tx]), keys)
  {
    NewLink(ends, known, tx, e);
    AllConnectedMore(Links(ends), Links(ends[e := tx]), keys);
  }

  lemma {:induction false} Undisturbed(ends: map<End, Tx>, known: map<Hash, Tx>, g: Graph, tx: Tx, e: End)
    requires Completes(ends, known, tx, e) && GraphOk(ends, known, g)
    requires ends[Other(e)].hash !in g.txs && tx.hash !in g.txs
    ensures GraphOk(ends[e := tx], known, g)
  {
    UndisturbedOpen(ends, known, g.txs.Keys, tx, e);
    UndisturbedLinks(ends, known, g.txs.Keys, tx, e);
  }

  /** A transaction with open ends and no matched one is a component by itself. */
  lemma {:induction false} Alone(ends: map<End, Tx>, known: map<Hash, Tx>, tx: Tx)
    requires World(ends, known) && tx.hash in known && known[tx.hash] == tx
    requires Unmatched(ends, tx) == OrdEnds(tx) && OrdEnds(tx) != {}
    ensures GraphOk(ends, known, AddTx(EMPTY, tx))
    ensures forall l :: l in Links(ends) ==> l.0 != tx.hash && l.1 != tx.hash
  {
    OrdCountIsSize(tx.messages);
    forall x | x in ends && !x.isInput && Other(x) in ends
      ensures ends[x].hash != tx.hash && ends[Other(x)].hash != tx.hash
    {
      assert Other(Other(x)) == x;
      assert Matched(ends, x) && Matched(ends, Other(x));
      assert ends[x].hash == tx.hash ==> x in OrdEnds(tx) && x in Unmatched(ends, tx);
      assert ends[Other(x)].hash == tx.hash ==> Other(x) in OrdEnds(tx) && Other(x) in Unmatched(ends, tx);
    }
    assert AddTx(EMPTY, tx).txs.Keys == {tx.hash};
    assert Open(ends, known, {tx.hash}) == Unmatched(ends, known[tx.hash]);
    assert LinksFrom(ends, {tx.hash}) == {};
    ConnectedSelf(Links(ends), tx.hash);
  }
}
