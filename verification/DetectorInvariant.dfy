/** The invariant of the detector over the processed message ends, and that each message keeps it. */
module DetectorInvariant {
  import opened Basics
  import opened Detector
  import opened DetectorGraphs

  /** The unmatched ends, with their transactions. */
  ghost function Pending(ends: map<End, Tx>): (r: map<End, Tx>)
  {
    map e | e in ends && Other(e) !in ends :: ends[e]
  }

  /** Every member of an active graph points to that graph. */
  ghost predicate Coherent(events: map<Hash, Graph>)
  {
    forall h :: h in events ==>
      && h in events[h].txs
      && forall k :: k in events[h].txs ==> k in events && events[k] == events[h]
  }

  ghost predicate EventsOk(ends: map<End, Tx>, known: map<Hash, Tx>, events: map<Hash, Graph>)
  {
    Coherent(events) && forall h :: h in events ==> GraphOk(ends, known, events[h]) && events[h].edgesLeft > 0
  }

  ghost predicate EmittedOk(ends: map<End, Tx>, known: map<Hash, Tx>, emitted: seq<Graph>)
  {
    && (forall i :: 0 <= i < |emitted| ==> GraphOk(ends, known, emitted[i]) && emitted[i].edgesLeft == 0)
    && (forall i, j :: 0 <= i < j < |emitted| ==> emitted[i].txs.Keys !! emitted[j].txs.Keys)
  }

  ghost predicate InEmitted(emitted: seq<Graph>, h: Hash)
  {
    exists i :: 0 <= i < |emitted| && h in emitted[i].txs
  }

  /** A transaction is in a graph exactly when one of its ends is matched, and then in one kind only. */
  ghost predicate Covers(ends: map<End, Tx>, known: map<Hash, Tx>, events: map<Hash, Graph>, emitted: seq<Graph>)
  {
    && (forall h :: h in events ==> h in known && !InEmitted(emitted, h))
    && (forall h :: h in known ==>
          (Unmatched(ends, known[h]) != OrdEnds(known[h]) <==> h in events || InEmitted(emitted, h)))
  }

  ghost predicate Inv(s: State, ends: map<End, Tx>, known: map<Hash, Tx>)
  {
    && World(ends, known)
    && s.edges == Pending(ends)
    && EventsOk(ends, known, s.events)
    && EmittedOk(ends, known, s.emitted)
    && Covers(ends, known, s.events, s.emitted)
    && s.active == |s.events.Values| && s.finished == |s.emitted| && s.merges == 0
  }

  // ----- an end that waits -----

  lemma {:induction false} WorldGrows(ends: map<End, Tx>, known: map<Hash, Tx>, tx: Tx, e: End)
    requires World(ends, known) && tx.hash in known && known[tx.hash] == tx && e in OrdEnds(tx)
    ensures World(ends[e := tx], known)
  {
  }

  lemma {:induction false} WaitingGraphs(s: State, ends: map<End, Tx>, known: map<Hash, Tx>, tx: Tx, e: End)
    requires EventsOk(ends, known, s.events) && EmittedOk(ends, known, s.emitted)
    requires e !in ends && Other(e) !in ends
    ensures EventsOk(ends[e := tx], known, s.events) && EmittedOk(ends[e := tx], known, s.emitted)
  {
    forall h | h in s.events ensures GraphOk(ends[e := tx], known, s.events[h]) {
      LoneEndGraph(ends, known, tx, e, s.events[h]);
    }
    forall i | 0 <= i < |s.emitted| ensures GraphOk(ends[e := tx], known, s.emitted[i]) {
      LoneEndGraph(ends, known, tx, e, s.emitted[i]);
    }
  }

  lemma {:induction false} WaitingEnd(s: State, ends: map<End, Tx>, known: map<Hash, Tx>, tx: Tx, m: Message)
    requires Inv(s, ends, known) && tx.hash in known && known[tx.hash] == tx
    requires m in tx.messages && GetMessageType(m) == Ord
    requires EndOf(m) !in ends && Other(EndOf(m)) !in ends
    ensures Inv(OnMessage(s, tx, m), ends[EndOf(m) := tx], known)
  {
    var e := EndOf(m);
    WorldGrows(ends, known, tx, e);
    LoneEnd(ends, tx, e);
    PendingWaits(ends, tx, e);
    WaitingGraphs(s, ends, known, tx, e);
    assert Covers(ends[e := tx], known, s.events, s.emitted);
  }

  lemma {:induction false} PendingWaits(ends: map<End, Tx>, tx: Tx, e: End)
    requires e !in ends && Other(e) !in ends
    ensures Pending(ends[e := tx]) == Pending(ends)[e := tx]
  {
    var after := ends[e := tx];
    forall x | x in ends ensures Other(x) in after <==> Other(x) in ends {
      assert Other(Other(x)) == x;
    }
    assert Other(Other(e)) == e;
  }

  // ----- an end that completes a message -----

  lemma {:induction false} PendingCloses(ends: map<End, Tx>, tx: Tx, e: End)
    requires e !in ends && Other(e) in ends
    ensures Other(e) in Pending(ends)
    ensures Pending(ends[e := tx]) == Pending(ends) - {Other(e)}
  {
    var after := ends[e := tx];
    assert Other(Other(e)) == e;
    forall x | x in ends ensures Other(x) in after <==> Other(x) in ends || x == Other(e) {
      assert Other(Other(x)) == x;
    }
  }

  /** The graph that the sender is in, or the sender alone. */
  ghost function SenderGraph(events: map<Hash, Graph>, tx2: Tx): (g: Graph)
    ensures tx2.hash in events ==> g == events[tx2.hash]
  {
    if tx2.hash in events then events[tx2.hash] else AddTx(EMPTY, tx2)
  }

  lemma {:induction false} NothingOpen(ends: map<End, Tx>, known: map<Hash, Tx>, g: Graph, h: Hash)
    requires GraphOk(ends, known, g) && g.edgesLeft == 0 && h in g.txs
    ensures Unmatched(ends, known[h]) == {}
  {
    assert Open(ends, known, g.txs.Keys) == {};
    assert Unmatched(ends, known[h]) <= Open(ends, known, g.txs.Keys);
  }

  lemma {:induction false} SenderNotEmitted(s: State, ends: map<End, Tx>, known: map<Hash, Tx>, tx: Tx, e: End)
    requires Inv(s, ends, known) && Completes(ends, known, tx, e)
    ensures !InEmitted(s.emitted, ends[Other(e)].hash)
    ensures tx.hash !in s.events && !InEmitted(s.emitted, tx.hash)
  {
    var tx2 := ends[Other(e)];
    NowMatched(ends, known, tx, e);
    forall i | 0 <= i < |s.emitted| ensures tx2.hash !in s.emitted[i].txs {
      if tx2.hash in s.emitted[i].txs {
        NothingOpen(ends, known, s.emitted[i], tx2.hash);
      }
    }
  }

  lemma {:induction false} SenderGraphOk(s: State, ends: map<End, Tx>, known: map<Hash, Tx>, tx: Tx, e: End)
    requires Inv(s, ends, known) && Completes(ends, known, tx, e)
    ensures var tx2 := ends[Other(e)]; var g0 := SenderGraph(s.events, tx2);
      && tx2.hash in g0.txs && tx.hash !in g0.txs && GraphOk(ends, known, g0)
      && (tx2.hash !in s.events ==> g0.txs.Keys == {tx2.hash})
  {
    var tx2 := ends[Other(e)];
    SenderNotEmitted(s, ends, known, tx, e);
    if tx2.hash !in s.events {
      assert Unmatched(ends, known[tx2.hash]) == OrdEnds(tx2);
      Alone(ends, known, tx2);
    }
  }

  /** The graph that the sender's graph grows into. */
  ghost function Grown(events: map<Hash, Graph>, tx2: Tx, tx: Tx): (g: Graph)
  {
    AddEdge(SenderGraph(events, tx2), tx2, tx)
  }

  lemma {:induction false} GrownGraph(s: State, ends: map<End, Tx>, known: map<Hash, Tx>, tx: Tx, e: End)
    requires Inv(s, ends, known) && Completes(ends, known, tx, e)
    ensures GraphOk(ends[e := tx], known, Grown(s.events, ends[Other(e)], tx))
  {
    SenderGraphOk(s, ends, known, tx, e);
    Grow(ends, known, SenderGraph(s.events, ends[Other(e)]), tx, e);
  }

  lemma {:induction false} FirstEdge(left: Tx, right: Tx)
    ensures AddEdge(EMPTY, left, right) == AddEdge(AddTx(EMPTY, left), left, right)
  {
  }

  lemma {:induction false} OthersKept(s: State, ends: map<End, Tx>, known: map<Hash, Tx>, tx: Tx, e: End)
    requires Inv(s, ends, known) && Completes(ends, known, tx, e)
    ensures var g0 := SenderGraph(s.events, ends[Other(e)]);
      && (forall h :: h in s.events && h !in g0.txs ==> GraphOk(ends[e := tx], known, s.events[h]))
      && (forall i :: 0 <= i < |s.emitted| ==> GraphOk(ends[e := tx], known, s.emitted[i]))
  {
    var tx2 := ends[Other(e)];
    var g0 := SenderGraph(s.events, tx2);
    SenderNotEmitted(s, ends, known, tx, e);
    SenderGraphOk(s, ends, known, tx, e);
    forall h | h in s.events && h !in g0.txs ensures GraphOk(ends[e := tx], known, s.events[h]) {
      Undisturbed(ends, known, s.events[h], tx, e);
    }
    forall i | 0 <= i < |s.emitted| ensures GraphOk(ends[e := tx], known, s.emitted[i]) {
      Undisturbed(ends, known, s.emitted[i], tx, e);
    }
  }

  lemma {:induction false} OnInput(s: State, tx: Tx, m: Message)
    requires m.isInput && Other(EndOf(m)) in s.edges && tx.hash !in s.events
    ensures var tx2 := s.edges[Other(EndOf(m))];
      OnMessage(s, tx, m) == CheckFinished(
        s.(edges := s.edges - {Other(EndOf(m))}, found := s.found + 1,
           active := s.active + if tx2.hash in s.events then 0 else 1),
        Grown(s.events, tx2, tx))
  {
    FirstEdge(s.edges[Other(EndOf(m))], tx);
  }

  lemma {:induction false} CoherentMembers(events: map<Hash, Graph>, h: Hash)
    requires Coherent(events) && h in events
    ensures events[h].txs.Keys <= events.Keys
    ensures forall k :: k in events ==> (k in events[h].txs <==> events[k] == events[h])
  {
    forall k | k in events && k in events[h].txs ensures events[k] == events[h] {
    }
    forall k | k in events && events[k] == events[h] ensures k in events[h].txs {
    }
  }

  lemma {:induction false} SenderKeys(events: map<Hash, Graph>, emitted: seq<Graph>, tx2: Tx)
    requires Coherent(events) && !InEmitted(emitted, tx2.hash)
    requires forall h :: h in events ==> !InEmitted(emitted, h)
    ensures var g0 := SenderGraph(events, tx2);
      && (forall h :: h in g0.txs ==> !InEmitted(emitted, h))
      && (tx2.hash in events ==> g0.txs.Keys <= events.Keys)
  {
    if tx2.hash in events {
      CoherentMembers(events, tx2.hash);
    }
  }

  /** How the sender's graph `g0`, the grown graph `g`, the sender `a` and the receiver `b` lie to the rest. */
  ghost predicate Grew(events: map<Hash, Graph>, emitted: seq<Graph>, g0: Graph, g: Graph, a: Hash, b: Hash)
  {
    && Coherent(events) && a in g0.txs && g.txs.Keys == g0.txs.Keys + {b}
    && b !in events && !InEmitted(emitted, b)
    && (forall h :: h in g0.txs ==> !InEmitted(emitted, h))
    && (a in events ==> g0 == events[a] && g0.txs.Keys <= events.Keys)
    && (a !in events ==> g0.txs.Keys == {a})
  }

  lemma {:induction false} GrownKeys(s: State, ends: map<End, Tx>, known: map<Hash, Tx>, tx: Tx, e: End)
    requires Inv(s, ends, known) && Completes(ends, known, tx, e)
    ensures var tx2 := ends[Other(e)];
      Grew(s.events, s.emitted, SenderGraph(s.events, tx2), Grown(s.events, tx2, tx), tx2.hash, tx.hash)
  {
    var tx2 := ends[Other(e)];
    SenderNotEmitted(s, ends, known, tx, e);
    SenderGraphOk(s, ends, known, tx, e);
    AddEdgeParts(SenderGraph(s.events, tx2), tx2, tx);
    SenderKeys(s.events, s.emitted, tx2);
  }

  // ----- the map of active graphs -----

  lemma {:induction false} PointToCoherent(events: map<Hash, Graph>, g0: Graph, g: Graph)
    requires Coherent(events) && g0.txs.Keys <= g.txs.Keys
    requires forall h :: h in events && h in g.txs ==> events[h] == g0
    ensures Coherent(PointTo(events, g))
    ensures forall h :: h in PointTo(events, g) ==>
      PointTo(events, g)[h] == if h in g.txs then g else events[h]
  {
    var r := PointTo(events, g);
    forall h | h in r ensures h in r[h].txs && forall k :: k in r[h].txs ==> k in r && r[k] == r[h] {
      if h !in g.txs {
        forall k | k in events[h].txs ensures k in r && r[k] == r[h] {
          assert k in events && events[k] == events[h];
        }
      }
    }
  }

  lemma {:induction false} DropCoherent(events: map<Hash, Graph>, g0: Graph, keys: set<Hash>)
    requires Coherent(events) && g0.txs.Keys <= keys
    requires forall h :: h in events && h in keys ==> events[h] == g0
    ensures Coherent(events - keys)
  {
    var r := events - keys;
    forall h | h in r ensures h in r[h].txs && forall k :: k in r[h].txs ==> k in r && r[k] == r[h] {
      forall k | k in events[h].txs ensures k !in keys {
        assert k in events && events[k] == events[h];
      }
    }
  }

  lemma {:induction false} ValuesWithout(events: map<Hash, Graph>, g0: Graph, keys: set<Hash>)
    requires forall h :: h in events ==> (h in keys <==> events[h] == g0)
    ensures (events - keys).Values == events.Values - {g0}
  {
    var rest := events - keys;
    forall x | x in events.Values - {g0} ensures x in rest.Values {
      var h :| h in events && events[h] == x;
      assert h in rest && rest[h] == x;
    }
  }

  lemma {:induction false} ValuesWith(events: map<Hash, Graph>, g: Graph)
    requires g.txs.Keys != {}
    ensures PointTo(events, g).Values == (events - g.txs.Keys).Values + {g}
  {
    var rest, r := events - g.txs.Keys, PointTo(events, g);
    var h :| h in g.txs;
    assert h in r && r[h] == g;
    forall x | x in rest.Values ensures x in r.Values {
      var k :| k in rest && rest[k] == x;
      assert k in r && r[k] == x;
    }
    forall x | x in r.Values ensures x in rest.Values + {g} {
      var k :| k in r && r[k] == x;
      assert k !in g.txs ==> k in rest && rest[k] == x;
    }
  }

  lemma {:induction false} NotAmong(events: map<Hash, Graph>, g: Graph, h: Hash)
    requires Coherent(events) && h in g.txs && h !in events
    ensures g !in events.Values
  {
    forall k | k in events ensures events[k] != g {
      assert forall x :: x in events[k].txs ==> x in events;
    }
  }

  /** Growing an active graph keeps the number of distinct graphs, dropping it takes one off. */
  lemma {:induction false} DistinctWhenActive(events: map<Hash, Graph>, g0: Graph, g: Graph, h: Hash)
    requires Coherent(events) && h in g.txs && h !in events && g0 in events.Values
    requires forall k :: k in events ==> (k in g.txs <==> events[k] == g0)
    ensures |PointTo(events, g).Values| == |events.Values|
    ensures |(events - g.txs.Keys).Values| == |events.Values| - 1
  {
    ValuesWith(events, g);
    NotAmong(events, g, h);
    ValuesWithout(events, g0, g.txs.Keys);
    SwapSizes(events.Values, g0, g);
  }

  /** A new graph adds one; dropping it at once changes nothing. */
  lemma {:induction false} DistinctWhenNew(events: map<Hash, Graph>, g: Graph, h: Hash)
    requires Coherent(events) && h in g.txs && g.txs.Keys !! events.Keys
    ensures |PointTo(events, g).Values| == |events.Values| + 1
    ensures |(events - g.txs.Keys).Values| == |events.Values|
  {
    ValuesWith(events, g);
    NotAmong(events, g, h);
    DropNothing(events, g.txs.Keys);
  }

  lemma {:induction false} DropNothing(events: map<Hash, Graph>, keys: set<Hash>)
    requires keys !! events.Keys
    ensures events - keys == events
  {
  }

  lemma {:induction false} SwapSizes<T>(a: set<T>, x: T, y: T)
    requires x in a && y !in a
    ensures |a - {x}| == |a| - 1 && |a - {x} + {y}| == |a|
  {
  }

  // ----- the completing step -----

  /** What the history says about each transaction after the step. */
  lemma {:induction false} MatchedAfter(ends: map<End, Tx>, known: map<Hash, Tx>, tx: Tx, e: End, h: Hash)
    requires Completes(ends, known, tx, e) && h in known
    ensures Unmatched(ends[e := tx], known[h]) != OrdEnds(known[h]) <==>
      Unmatched(ends, known[h]) != OrdEnds(known[h]) || h == tx.hash || h == ends[Other(e)].hash
  {
    NowMatched(ends, known, tx, e);
    assert e in OrdEnds(tx) && Other(e) in OrdEnds(ends[Other(e)]);
  }

  lemma {:induction false} GrewCounts(events: map<Hash, Graph>, emitted: seq<Graph>, g0: Graph, g: Graph, a: Hash,
                                      b: Hash)
    requires Grew(events, emitted, g0, g, a, b)
    ensures |PointTo(events, g).Values| == |events.Values| + if a in events then 0 else 1
    ensures |(events - g.txs.Keys).Values| == |events.Values| - if a in events then 1 else 0
    ensures forall k :: k in events && k in g.txs ==> events[k] == g0
  {
    if a in events {
      GrewActive(events, g0, g, a, b);
    } else {
      GrewNew(events, g, a, b);
    }
  }

  lemma {:induction false} GrewNew(events: map<Hash, Graph>, g: Graph, a: Hash, b: Hash)
    requires Coherent(events) && g.txs.Keys == {a, b} && a !in events && b !in events
    ensures |PointTo(events, g).Values| == |events.Values| + 1 && |(events - g.txs.Keys).Values| == |events.Values|
    ensures forall k :: k in events ==> k !in g.txs
  {
    DistinctWhenNew(events, g, b);
  }

  lemma {:induction false} GrewActive(events: map<Hash, Graph>, g0: Graph, g: Graph, a: Hash, b: Hash)
    requires Coherent(events) && a in g0.txs && g.txs.Keys == g0.txs.Keys + {b} && b !in events
    requires a in events && g0 == events[a] && g0.txs.Keys <= events.Keys
    ensures |PointTo(events, g).Values| == |events.Values| && |(events - g.txs.Keys).Values| == |events.Values| - 1
    ensures forall k :: k in events && k in g.txs ==> events[k] == g0
  {
    CoherentMembers(events, a);
    DistinctWhenActive(events, g0, g, b);
  }

  lemma {:induction false} GrewKeys(events: map<Hash, Graph>, emitted: seq<Graph>, g0: Graph, g: Graph, a: Hash,
                                    b: Hash, h: Hash)
    requires Grew(events, emitted, g0, g, a, b)
    ensures h in PointTo(events, g) <==> h in events || h == a || h == b
    ensures h in events - g.txs.Keys || h in g.txs <==> h in events || h == a || h == b
  {
  }

  lemma {:induction false} KeepGraphs(s: State, ends: map<End, Tx>, known: map<Hash, Tx>, tx: Tx, e: End)
    requires Inv(s, ends, known) && Completes(ends, known, tx, e)
    requires Grown(s.events, ends[Other(e)], tx).edgesLeft != 0
    ensures EventsOk(ends[e := tx], known, PointTo(s.events, Grown(s.events, ends[Other(e)], tx)))
  {
    var after, tx2 := ends[e := tx], ends[Other(e)];
    var g0, g := SenderGraph(s.events, tx2), Grown(s.events, tx2, tx);
    var events := PointTo(s.events, g);
    GrownKeys(s, ends, known, tx, e);
    GrewCounts(s.events, s.emitted, g0, g, tx2.hash, tx.hash);
    PointToCoherent(s.events, g0, g);
    GrownGraph(s, ends, known, tx, e);
    OthersKept(s, ends, known, tx, e);
    forall h | h in events ensures GraphOk(after, known, events[h]) && events[h].edgesLeft > 0 {
      assert events[h] == if h in g.txs then g else s.events[h];
    }
  }

  lemma {:induction false} KeepCovers(ends: map<End, Tx>, known: map<Hash, Tx>, tx: Tx, e: End,
                                      events: map<Hash, Graph>, emitted: seq<Graph>, g0: Graph, g: Graph)
    requires Completes(ends, known, tx, e) && Covers(ends, known, events, emitted)
    requires Grew(events, emitted, g0, g, ends[Other(e)].hash, tx.hash)
    ensures Covers(ends[e := tx], known, PointTo(events, g), emitted)
  {
    forall h ensures h in PointTo(events, g) <==> h in events || h == ends[Other(e)].hash || h == tx.hash {
      GrewKeys(events, emitted, g0, g, ends[Other(e)].hash, tx.hash, h);
    }
    var events' := PointTo(events, g);
    forall h | h in events' ensures h in known && !InEmitted(emitted, h) {
      assert h in events || h == ends[Other(e)].hash || h == tx.hash;
    }
    CoversMore(ends, known, tx, e, events, emitted, events', emitted);
  }

  lemma {:induction false} EmitCovers(ends: map<End, Tx>, known: map<Hash, Tx>, tx: Tx, e: End,
                                      events: map<Hash, Graph>, emitted: seq<Graph>, g0: Graph, g: Graph)
    requires Completes(ends, known, tx, e) && Covers(ends, known, events, emitted)
    requires Grew(events, emitted, g0, g, ends[Other(e)].hash, tx.hash)
    ensures Covers(ends[e := tx], known, events - g.txs.Keys, emitted + [g])
  {
    var events', emitted' := events - g.txs.Keys, emitted + [g];
    forall h ensures InEmitted(emitted', h) <==> InEmitted(emitted, h) || h in g.txs {
      EmittedMore(emitted, g, h);
    }
    forall h ensures h in events' || h in g.txs <==> h in events || h == ends[Other(e)].hash || h == tx.hash {
      GrewKeys(events, emitted, g0, g, ends[Other(e)].hash, tx.hash, h);
    }
    CoversMore(ends, known, tx, e, events, emitted, events', emitted');
  }

  lemma {:induction false} CoversMore(ends: map<End, Tx>, known: map<Hash, Tx>, tx: Tx, e: End,
                                      events: map<Hash, Graph>, emitted: seq<Graph>,
                                      events': map<Hash, Graph>, emitted': seq<Graph>)
    requires Completes(ends, known, tx, e) && Covers(ends, known, events, emitted)
    requires forall h :: h in events' ==> h in known && !InEmitted(emitted', h)
    requires forall h :: h in events' || InEmitted(emitted', h) <==>
      h in events || InEmitted(emitted, h) || h == tx.hash || h == ends[Other(e)].hash
    ensures Covers(ends[e := tx], known, events', emitted')
  {
    forall h | h in known ensures Unmatched(ends[e := tx], known[h]) != OrdEnds(known[h]) <==>
        h in events' || InEmitted(emitted', h) {
      MatchedAfter(ends, known, tx, e, h);
    }
  }

  lemma {:induction false} EmittedMore(emitted: seq<Graph>, g: Graph, h: Hash)
    ensures InEmitted(emitted + [g], h) <==> InEmitted(emitted, h) || h in g.txs
  {
    var more := emitted + [g];
    if InEmitted(emitted, h) {
      var i :| 0 <= i < |emitted| && h in emitted[i].txs;
      assert h in more[i].txs;
    }
    if h in g.txs {
      assert h in more[|emitted|].txs;
    }
  }

  lemma {:induction false} DropGraphs(s: State, ends: map<End, Tx>, known: map<Hash, Tx>, tx: Tx, e: End)
    requires Inv(s, ends, known) && Completes(ends, known, tx, e)
    ensures EventsOk(ends[e := tx], known, s.events - Grown(s.events, ends[Other(e)], tx).txs.Keys)
  {
    var after, tx2 := ends[e := tx], ends[Other(e)];
    var g0, g := SenderGraph(s.events, tx2), Grown(s.events, tx2, tx);
    var events := s.events - g.txs.Keys;
    GrownKeys(s, ends, known, tx, e);
    GrewCounts(s.events, s.emitted, g0, g, tx2.hash, tx.hash);
    DropCoherent(s.events, g0, g.txs.Keys);
    OthersKept(s, ends, known, tx, e);
    forall h | h in events ensures GraphOk(after, known, events[h]) && events[h].edgesLeft > 0 {
      assert events[h] == s.events[h];
    }
  }

  lemma {:induction false} EmitGraph(s: State, ends: map<End, Tx>, known: map<Hash, Tx>, tx: Tx, e: End)
    requires Inv(s, ends, known) && Completes(ends, known, tx, e)
    requires Grown(s.events, ends[Other(e)], tx).edgesLeft == 0
    ensures EmittedOk(ends[e := tx], known, s.emitted + [Grown(s.events, ends[Other(e)], tx)])
  {
    var tx2 := ends[Other(e)];
    var g := Grown(s.events, tx2, tx);
    GrownKeys(s, ends, known, tx, e);
    GrownGraph(s, ends, known, tx, e);
    EmittedKept(s, ends, known, tx, e);
    EmittedApart(s.emitted, SenderGraph(s.events, tx2), g, tx.hash);
    EmittedAppend(ends[e := tx], known, s.emitted, g);
  }

  lemma {:induction false} EmittedAppend(ends: map<End, Tx>, known: map<Hash, Tx>, emitted: seq<Graph>, g: Graph)
    requires EmittedOk(ends, known, emitted) && GraphOk(ends, known, g) && g.edgesLeft == 0
    requires forall i :: 0 <= i < |emitted| ==> emitted[i].txs.Keys !! g.txs.Keys
    ensures EmittedOk(ends, known, emitted + [g])
  {
  }

  lemma {:induction false} EmittedApart(emitted: seq<Graph>, g0: Graph, g: Graph, b: Hash)
    requires g.txs.Keys == g0.txs.Keys + {b} && !InEmitted(emitted, b)
    requires forall h :: h in g0.txs ==> !InEmitted(emitted, h)
    ensures forall i :: 0 <= i < |emitted| ==> emitted[i].txs.Keys !! g.txs.Keys
  {
    forall i, h | 0 <= i < |emitted| && h in g.txs ensures h !in emitted[i].txs {
      assert !InEmitted(emitted, h);
    }
  }

  lemma {:induction false} KeepStep(s: State, ends: map<End, Tx>, known: map<Hash, Tx>, tx: Tx, e: End)
    requires Inv(s, ends, known) && Completes(ends, known, tx, e)
    requires Grown(s.events, ends[Other(e)], tx).edgesLeft != 0
    ensures var g := Grown(s.events, ends[Other(e)], tx); var events := PointTo(s.events, g);
      && EventsOk(ends[e := tx], known, events)
      && EmittedOk(ends[e := tx], known, s.emitted)
      && Covers(ends[e := tx], known, events, s.emitted)
      && |events.Values| == |s.events.Values| + if ends[Other(e)].hash in s.events then 0 else 1
  {
    var tx2 := ends[Other(e)];
    var g0, g := SenderGraph(s.events, tx2), Grown(s.events, tx2, tx);
    KeepGraphs(s, ends, known, tx, e);
    EmittedKept(s, ends, known, tx, e);
    GrownKeys(s, ends, known, tx, e);
    GrewCounts(s.events, s.emitted, g0, g, tx2.hash, tx.hash);
    KeepCovers(ends, known, tx, e, s.events, s.emitted, g0, g);
  }

  lemma {:induction false} EmitStep(s: State, ends: map<End, Tx>, known: map<Hash, Tx>, tx: Tx, e: End)
    requires Inv(s, ends, known) && Completes(ends, known, tx, e)
    requires Grown(s.events, ends[Other(e)], tx).edgesLeft == 0
    ensures var g := Grown(s.events, ends[Other(e)], tx); var events := s.events - g.txs.Keys;
      && EventsOk(ends[e := tx], known, events)
      && EmittedOk(ends[e := tx], known, s.emitted + [g])
      && Covers(ends[e := tx], known, events, s.emitted + [g])
      && |events.Values| == |s.events.Values| - if ends[Other(e)].hash in s.events then 1 else 0
  {
    var tx2 := ends[Other(e)];
    var g0, g := SenderGraph(s.events, tx2), Grown(s.events, tx2, tx);
    DropGraphs(s, ends, known, tx, e);
    EmitGraph(s, ends, known, tx, e);
    GrownKeys(s, ends, known, tx, e);
    GrewCounts(s.events, s.emitted, g0, g, tx2.hash, tx.hash);
    EmitCovers(ends, known, tx, e, s.events, s.emitted, g0, g);
  }

  /** The state just before the check whether the graph is finished. */
  ghost function BeforeCheck(s: State, ends: map<End, Tx>, tx: Tx, e: End): (r: State)
    requires Other(e) in ends
  {
    s.(edges := Pending(ends[e := tx]), found := s.found + 1,
       active := s.active + if ends[Other(e)].hash in s.events then 0 else 1)
  }

  lemma {:induction false} InvKept(r: State, s: State, ends: map<End, Tx>, known: map<Hash, Tx>, g: Graph)
    requires r == CheckFinished(s, g) && g.edgesLeft != 0
    requires World(ends, known) && s.edges == Pending(ends)
    requires EventsOk(ends, known, PointTo(s.events, g)) && EmittedOk(ends, known, s.emitted)
    requires Covers(ends, known, PointTo(s.events, g), s.emitted)
    requires s.active == |PointTo(s.events, g).Values| && s.finished == |s.emitted| && s.merges == 0
    ensures Inv(r, ends, known)
  {
  }

  lemma {:induction false} InvEmitted(r: State, s: State, ends: map<End, Tx>, known: map<Hash, Tx>, g: Graph)
    requires r == CheckFinished(s, g) && g.edgesLeft == 0
    requires World(ends, known) && s.edges == Pending(ends)
    requires EventsOk(ends, known, s.events - g.txs.Keys) && EmittedOk(ends, known, s.emitted + [g])
    requires Covers(ends, known, s.events - g.txs.Keys, s.emitted + [g])
    requires s.active - 1 == |(s.events - g.txs.Keys).Values| && s.finished == |s.emitted| && s.merges == 0
    ensures Inv(r, ends, known)
  {
  }

  lemma {:induction false} OnCompleting(s: State, ends: map<End, Tx>, known: map<Hash, Tx>, tx: Tx, m: Message)
    requires Inv(s, ends, known) && Completes(ends, known, tx, EndOf(m))
    ensures var e := EndOf(m);
      OnMessage(s, tx, m) == CheckFinished(BeforeCheck(s, ends, tx, e), Grown(s.events, ends[Other(e)], tx))
    ensures World(ends[EndOf(m) := tx], known)
  {
    SenderNotEmitted(s, ends, known, tx, EndOf(m));
    OnPending(s, ends, tx, m);
    WorldGrows(ends, known, tx, EndOf(m));
  }

  lemma {:induction false} OnPending(s: State, ends: map<End, Tx>, tx: Tx, m: Message)
    requires m.isInput && s.edges == Pending(ends) && tx.hash !in s.events
    requires EndOf(m) !in ends && Other(EndOf(m)) in ends
    ensures var e := EndOf(m);
      OnMessage(s, tx, m) == CheckFinished(BeforeCheck(s, ends, tx, e), Grown(s.events, ends[Other(e)], tx))
  {
    PendingCloses(ends, tx, EndOf(m));
    OnInput(s, tx, m);
  }

  lemma {:induction false} CompletingEmits(s: State, ends: map<End, Tx>, known: map<Hash, Tx>, tx: Tx, m: Message)
    requires Inv(s, ends, known) && Completes(ends, known, tx, EndOf(m))
    requires Grown(s.events, ends[Other(EndOf(m))], tx).edgesLeft == 0
    ensures Inv(OnMessage(s, tx, m), ends[EndOf(m) := tx], known)
  {
    var e := EndOf(m);
    OnCompleting(s, ends, known, tx, m);
    EmitStep(s, ends, known, tx, e);
    InvEmitted(OnMessage(s, tx, m), BeforeCheck(s, ends, tx, e), ends[e := tx], known,
               Grown(s.events, ends[Other(e)], tx));
  }

  lemma {:induction false} CompletingKeeps(s: State, ends: map<End, Tx>, known: map<Hash, Tx>, tx: Tx, m: Message)
    requires Inv(s, ends, known) && Completes(ends, known, tx, EndOf(m))
    requires Grown(s.events, ends[Other(EndOf(m))], tx).edgesLeft != 0
    ensures Inv(OnMessage(s, tx, m), ends[EndOf(m) := tx], known)
  {
    var e := EndOf(m);
    OnCompleting(s, ends, known, tx, m);
    KeepStep(s, ends, known, tx, e);
    InvKept(OnMessage(s, tx, m), BeforeCheck(s, ends, tx, e), ends[e := tx], known,
            Grown(s.events, ends[Other(e)], tx));
  }

  /** Completing a message keeps the invariant, and never merges. */
  lemma {:induction false} CompletingEnd(s: State, ends: map<End, Tx>, known: map<Hash, Tx>, tx: Tx, m: Message)
    requires Inv(s, ends, known) && Completes(ends, known, tx, EndOf(m))
    ensures Inv(OnMessage(s, tx, m), ends[EndOf(m) := tx], known)
  {
    if Grown(s.events, ends[Other(EndOf(m))], tx).edgesLeft == 0 {
      CompletingEmits(s, ends, known, tx, m);
    } else {
      CompletingKeeps(s, ends, known, tx, m);
    }
  }

  lemma {:induction false} EmittedKept(s: State, ends: map<End, Tx>, known: map<Hash, Tx>, tx: Tx, e: End)
    requires Inv(s, ends, known) && Completes(ends, known, tx, e)
    ensures EmittedOk(ends[e := tx], known, s.emitted)
  {
    OthersKept(s, ends, known, tx, e);
  }
}
