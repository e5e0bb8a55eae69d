/** What a merge does to the counter, on any stream, and a stream on which it loses a whole event. */
module DetectorMerges {
  import opened Basics
  import opened Detector
  import opened DetectorMessages
  import opened DetectorCounters
  import opened DetectorRuns
  import opened Sums

  // ----- graphs are equal or disjoint, and have something open -----

  /** Every transaction points to a graph that has it and whose counter is not zero, and all members of that graph
      point to the same one. */
  ghost predicate Consistent(events: map<Hash, Graph>)
  {
    forall h :: h in events ==> PointsRight(events, h)
  }

  ghost predicate PointsRight(events: map<Hash, Graph>, h: Hash)
    requires h in events
  {
    && h in events[h].txs && events[h].edgesLeft != 0
    && forall k :: k in events[h].txs ==> k in events && events[k] == events[h]
  }

  lemma {:induction false} SameOrApart(events: map<Hash, Graph>, a: Hash, b: Hash)
    requires Consistent(events) && a in events && b in events
    ensures events[a] == events[b] || events[a].txs.Keys !! events[b].txs.Keys
  {
    assert PointsRight(events, a) && PointsRight(events, b);
  }

  /** A graph that takes in whole graphs can be written out or kept. */
  lemma {:induction false} SettleConsistent(s: State, g: Graph)
    requires Consistent(s.events)
    requires forall h :: h in s.events && h in g.txs ==> s.events[h].txs.Keys <= g.txs.Keys
    ensures Consistent(CheckFinished(s, g).events)
  {
    var after := CheckFinished(s, g).events;
    forall h | h in after ensures PointsRight(after, h) {
      if h !in g.txs {
        assert PointsRight(s.events, h);
        forall k | k in s.events[h].txs ensures k !in g.txs {
          assert PointsRight(s.events, k);
        }
      }
    }
  }

  lemma {:induction false} BaseTakesWhole(events: map<Hash, Graph>, left: Tx, right: Tx, h: Hash)
    requires Consistent(events) && h in events && h in AddEdge(Base(events, left, right), left, right).txs
    ensures events[h].txs.Keys <= AddEdge(Base(events, left, right), left, right).txs.Keys
  {
    if left.hash in events { assert PointsRight(events, left.hash); }
    if right.hash in events { assert PointsRight(events, right.hash); }
  }

  lemma {:induction false} EdgeConsistent(s: State, left: Tx, right: Tx)
    requires Consistent(s.events)
    ensures Consistent(OnEdge(s, left, right).events)
  {
    var g := AddEdge(Base(s.events, left, right), left, right);
    forall h | h in s.events && h in g.txs ensures s.events[h].txs.Keys <= g.txs.Keys {
      BaseTakesWhole(s.events, left, right, h);
    }
    SettleConsistent(CountEdge(s, left, right), g);
  }

  lemma {:induction false} MessageConsistent(s: State, tx: Tx, m: Message)
    requires Consistent(s.events)
    ensures Consistent(OnMessage(s, tx, m).events)
  {
    var other := Other(EndOf(m));
    if other in s.edges {
      var t := s.(edges := s.edges - {other}, found := s.found + 1);
      EdgeConsistent(t, s.edges[other], tx);
      EdgeConsistent(t, tx, s.edges[other]);
    }
  }

  lemma {:induction false} MessagesConsistent(s: State, tx: Tx, n: nat, count: nat)
    requires Consistent(s.events) && n <= |tx.messages|
    ensures Consistent(OnMessages(s, tx, n, count).0.events)
    decreases |tx.messages| - n
  {
    if n < |tx.messages| {
      var m := tx.messages[n];
      MessageConsistent(s, tx, m);
      MessagesConsistent(OnMessage(s, tx, m), tx, n + 1, count + if Counts(s, m) then 1 else 0);
    }
  }

  /** On any stream, in any order and with any repetitions, two active graphs are the same or have no transaction in
      common, and no active graph has the counter zero. */
  lemma {:induction false} RunConsistent(txs: seq<Tx>, tickTocks: bool)
    ensures Consistent(Run(Init(tickTocks), txs).events)
  {
    if txs != [] {
      var k := |txs| - 1;
      RunConsistent(txs[..k], tickTocks);
      MessagesConsistent(Run(Init(tickTocks), txs[..k]), txs[k], 0, 0);
    }
  }

  // ----- the counter of a merge -----

  /** How far the counter is below the sum. */
  ghost function Deficit(g: Graph): (r: int)
  {
    Sum(Opens(g.txs)) - g.edgesLeft
  }

  /** On any stream, a merge of two graphs adds the right one's whole counter to what the counter is short of; a graph
      merged with itself keeps its counter, and has its edges twice. */
  lemma {:induction false} MergeShortfall(txs: seq<Tx>, tickTocks: bool, a: Hash, b: Hash)
    requires var events := Run(Init(tickTocks), txs).events; a in events && b in events
    ensures var left, right := Run(Init(tickTocks), txs).events[a], Run(Init(tickTocks), txs).events[b];
      && Deficit(MergeWith(left, right)) ==
           (if left == right then Deficit(left) else Deficit(left) + Deficit(right) + right.edgesLeft)
      && (left == right ==>
           MergeWith(left, right).txs == left.txs && MergeWith(left, right).edges == left.edges + left.edges)
  {
    var events := Run(Init(tickTocks), txs).events;
    RunConsistent(txs, tickTocks);
    SameOrApart(events, a, b);
    if events[a] == events[b] {
      assert events[a].txs + events[a].txs == events[a].txs;
    } else {
      ApartSum(events[a].txs, events[b].txs);
    }
  }

  lemma {:induction false} ApartSum(left: map<Hash, Slot>, right: map<Hash, Slot>)
    requires left.Keys !! right.Keys
    ensures Sum(Opens(left + right)) == Sum(Opens(left)) + Sum(Opens(right))
  {
    assert Opens(left + right) == Opens(left) + Opens(right);
    SumUnion(Opens(left), Opens(right));
  }

  /** So a merge of graphs whose counters are right keeps the counter right if and only if the two are one: the right
      one has something open, and that is what is lost. */
  lemma {:induction false} MergeKeepsCounterExactly(txs: seq<Tx>, tickTocks: bool, a: Hash, b: Hash)
    requires var events := Run(Init(tickTocks), txs).events;
      a in events && b in events && Balanced(events[a]) && Balanced(events[b])
    ensures var left, right := Run(Init(tickTocks), txs).events[a], Run(Init(tickTocks), txs).events[b];
      Balanced(MergeWith(left, right)) <==> left == right
  {
    MergeShortfall(txs, tickTocks, a, b);
    RunConsistent(txs, tickTocks);
    assert PointsRight(Run(Init(tickTocks), txs).events, b);
  }

  // ----- a stream that merges -----

  /** An end of an ordinary message. */
  function Plain(hash: Hash, isInput: bool): (m: Message)
  {
    Message(hash, isInput, Some(Account(0, 1)), Some(Account(0, 2)))
  }

  const P := Tx(1, false, [Plain(1, false)])
  const X := Tx(4, false, [Plain(1, true), Plain(2, false)])
  const Q := Tx(2, false, [Plain(2, true), Plain(3, false)])
  const R := Tx(3, false, [Plain(3, true)])

  lemma {:induction false} Counted(m: Message, w: Message)
    requires GetMessageType(m) == Ord && GetMessageType(w) == Ord
    ensures OrdCount([m]) == 1 && OrdCount([m, w]) == 2
  {
    assert [m][..0] == [] && [m, w][..1] == [m];
  }

  lemma {:induction false} TwoMessages(s: State, tx: Tx, m: Message, w: Message)
    requires tx.messages == [m, w] && !tx.tickTock && GetMessageType(m) == Ord && GetMessageType(w) == Ord
    ensures ProcessTx(s, tx) == OnMessage(OnMessage(s, tx, m), tx, w)
  {
    var t := OnMessage(s, tx, m);
    assert OnMessages(s, tx, 0, 0) == OnMessages(t, tx, 1, 1);
    assert OnMessages(t, tx, 1, 1) == OnMessages(OnMessage(t, tx, w), tx, 2, 2);
  }

  lemma {:induction false} Completes(s: State, left: Tx, right: Tx, h: Hash)
    ensures End(h, false) in s.edges && s.edges[End(h, false)] == left ==>
      OnMessage(s, right, Plain(h, true))
        == OnEdge(s.(edges := s.edges - {End(h, false)}, found := s.found + 1), left, right)
    ensures End(h, true) in s.edges && s.edges[End(h, true)] == right ==>
      OnMessage(s, left, Plain(h, false))
        == OnEdge(s.(edges := s.edges - {End(h, true)}, found := s.found + 1), left, right)
  {
  }

  lemma {:induction false} StartsGraph(s: State, left: Tx, right: Tx)
    requires left.hash !in s.events && right.hash !in s.events && left.hash != right.hash
    requires OrdCount(left.messages) + OrdCount(right.messages) != 2
    ensures var g := AddEdge(EMPTY, left, right);
      OnEdge(s, left, right) == s.(active := s.active + 1, events := s.events[left.hash := g][right.hash := g])
  {
    var g := AddEdge(EMPTY, left, right);
    FirstEdge(left, right);
    assert PointTo(s.events, g) == s.events[left.hash := g][right.hash := g];
  }

  /** The state with these waiting ends, graphs and counts, and nothing written out. */
  ghost predicate Stands(s: State, edges: map<End, Tx>, events: map<Hash, Graph>, active: int, merges: int)
  {
    s.edges == edges && s.events == events && s.active == active && s.merges == merges && s.emitted == []
  }

  lemma {:induction false} DeliverP(s: State)
    requires Stands(s, map[], map[], 0, 0)
    ensures Stands(ProcessTx(s, P), map[End(1, false) := P], map[], 0, 0)
  {
    OneMessage(s, P, Plain(1, false));
    Waits(s, P, Plain(1, false));
  }

  lemma {:induction false} DeliverQ(s: State)
    requires Stands(s, map[End(1, false) := P], map[], 0, 0)
    ensures Stands(ProcessTx(s, Q), map[End(1, false) := P, End(2, true) := Q, End(3, false) := Q], map[], 0, 0)
  {
    TwoMessages(s, Q, Plain(2, true), Plain(3, false));
    Waits(s, Q, Plain(2, true));
    Waits(OnMessage(s, Q, Plain(2, true)), Q, Plain(3, false));
  }

  lemma {:induction false} OrdinaryEnds()
    ensures OrdCount(P.messages) == 1 && OrdCount(X.messages) == 2 && OrdCount(Q.messages) == 2
    ensures OrdCount(R.messages) == 1
  {
    Counted(Plain(1, false), Plain(1, false));
    Counted(Plain(1, true), Plain(2, false));
    Counted(Plain(2, true), Plain(3, false));
    Counted(Plain(3, true), Plain(3, true));
  }

  const QR := AddEdge(EMPTY, Q, R)
  const PX := AddEdge(EMPTY, P, X)

  lemma {:induction false} DeliverR(s: State)
    requires Stands(s, map[End(1, false) := P, End(2, true) := Q, End(3, false) := Q], map[], 0, 0)
    ensures Stands(ProcessTx(s, R), map[End(1, false) := P, End(2, true) := Q], map[2 := QR, 3 := QR], 1, 0)
  {
    OneMessage(s, R, Plain(3, true));
    Completes(s, Q, R, 3);
    OrdinaryEnds();
    StartsGraph(s.(edges := s.edges - {End(3, false)}, found := s.found + 1), Q, R);
    assert s.edges - {End(3, false)} == map[End(1, false) := P, End(2, true) := Q];
  }

  /** The last transaction first opens a second graph with P. */
  lemma {:induction false} DeliverHalfX(s: State, g: Graph)
    requires Stands(s, map[End(1, false) := P, End(2, true) := Q], map[2 := g, 3 := g], 1, 0)
    ensures Stands(OnMessage(s, X, Plain(1, true)), map[End(2, true) := Q], map[2 := g, 3 := g, 1 := PX, 4 := PX], 2, 0)
  {
    Completes(s, P, X, 1);
    OrdinaryEnds();
    StartsGraph(s.(edges := s.edges - {End(1, false)}, found := s.found + 1), P, X);
    assert s.edges - {End(1, false)} == map[End(2, true) := Q];
  }

  lemma {:induction false} MergedGraph()
    ensures var g := AddEdge(MergeWith(PX, QR), X, Q); g.txs.Keys == {1, 2, 3, 4} && g.edgesLeft == -1
    ensures var g := AddEdge(MergeWith(PX, QR), X, Q); forall h :: h in g.txs ==> g.txs[h].open == 0
  {
    OrdinaryEnds();
    FirstEdge(P, X);
    FirstEdge(Q, R);
  }

  lemma {:induction false} MergesGraphs(s: State, left: Tx, right: Tx, g: Graph)
    requires left.hash in s.events && right.hash in s.events
    requires g == AddEdge(MergeWith(s.events[left.hash], s.events[right.hash]), left, right) && g.edgesLeft != 0
    ensures OnEdge(s, left, right) == s.(active := s.active - 1, merges := s.merges + 1, events := PointTo(s.events, g))
  {
  }

  lemma {:induction false} AllPoint(events: map<Hash, Graph>, g: Graph)
    requires events.Keys == g.txs.Keys
    ensures PointTo(events, g) == map h | h in events :: g
  {
  }

  /** Its second message then merges the two. */
  lemma {:induction false} DeliverX(s: State, t: State, l: Graph, r: Graph, g: Graph)
    requires Stands(s, map[End(2, true) := Q], map[2 := r, 3 := r, 1 := l, 4 := l], 2, 0)
    requires t == OnMessage(s, X, Plain(2, false)) && g == AddEdge(MergeWith(l, r), X, Q) && g.edgesLeft != 0
    requires g.txs.Keys == {1, 2, 3, 4}
    ensures t.edges == map[] && t.emitted == [] && t.merges == 1 && t.events.Keys == {1, 2, 3, 4}
    ensures forall h :: h in t.events ==> t.events[h] == g
  {
    Completes(s, X, Q, 2);
    var u := s.(edges := s.edges - {End(2, true)}, found := s.found + 1);
    assert u.edges == map[];
    MergesGraphs(u, X, Q, g);
    AllPoint(u.events, g);
  }

  /** P sends 1, X receives 1 and sends 2, Q receives 2 and sends 3, R receives 3. Delivered as P, Q, R, X, every end
      is matched and nothing is open, but the counter is -1 and the event is never written out. */
  lemma {:induction false} MergeLosesTheEvent(tickTocks: bool)
    ensures var s := Run(Init(tickTocks), [P, Q, R, X]);
      && s.edges == map[] && s.emitted == [] && s.merges == 1 && s.events.Keys == {1, 2, 3, 4}
      && forall h :: h in s.events ==> s.events[h].edgesLeft == -1 && Sum(Opens(s.events[h].txs)) == 0
  {
    ThreeDelivered(Init(tickTocks));
    RunOne(Init(tickTocks), [P, Q, R], X);
    assert [P, Q, R] + [X] == [P, Q, R, X];
    LastDelivered(Run(Init(tickTocks), [P, Q, R]));
  }

  lemma {:induction false} TwoDelivered(s: State)
    requires Stands(s, map[], map[], 0, 0)
    ensures Stands(Run(s, [P, Q]), map[End(1, false) := P, End(2, true) := Q, End(3, false) := Q], map[], 0, 0)
  {
    RunOne(s, [], P);
    assert [] + [P] == [P] && Run(s, []) == s;
    DeliverP(s);
    RunOne(s, [P], Q);
    assert [P] + [Q] == [P, Q];
    DeliverQ(Run(s, [P]));
  }

  lemma {:induction false} ThreeDelivered(s: State)
    requires Stands(s, map[], map[], 0, 0)
    ensures Stands(Run(s, [P, Q, R]), map[End(1, false) := P, End(2, true) := Q], map[2 := QR, 3 := QR], 1, 0)
  {
    TwoDelivered(s);
    RunOne(s, [P, Q], R);
    assert [P, Q] + [R] == [P, Q, R];
    DeliverR(Run(s, [P, Q]));
  }

  ghost predicate Lost(t: State)
  {
    && t.edges == map[] && t.emitted == [] && t.merges == 1 && t.events.Keys == {1, 2, 3, 4}
    && forall h :: h in t.events ==> t.events[h].edgesLeft == -1 && Sum(Opens(t.events[h].txs)) == 0
  }

  lemma {:induction false} Merges(half: State)
    requires Stands(half, map[End(2, true) := Q], map[2 := QR, 3 := QR, 1 := PX, 4 := PX], 2, 0)
    ensures Lost(OnMessage(half, X, Plain(2, false)))
  {
    var g := AddEdge(MergeWith(PX, QR), X, Q);
    MergedGraph();
    AllZero(Opens(g.txs));
    DeliverX(half, OnMessage(half, X, Plain(2, false)), PX, QR, g);
  }

  lemma {:induction false} LastDelivered(s: State)
    requires Stands(s, map[End(1, false) := P, End(2, true) := Q], map[2 := QR, 3 := QR], 1, 0)
    ensures Lost(ProcessTx(s, X))
  {
    TwoMessages(s, X, Plain(1, true), Plain(2, false));
    DeliverHalfX(s, QR);
    Merges(OnMessage(s, X, Plain(1, true)));
  }

  lemma {:induction false} AllZero(m: map<Hash, int>)
    requires forall h :: h in m ==> m[h] == 0
    ensures Sum(m) == 0
    decreases |m|
  {
    if m != map[] {
      var h :| h in m;
      SumTake(m, h);
      assert (m - {h}).Keys == m.Keys - {h};
      AllZero(m - {h});
    }
  }

  /** In the order P, X, Q, R the `i`-th transaction receives message `i`, the first none, and sends message `i + 1`,
      the last none. */
  lemma {:induction false} Listing(i: int, a: int)
    requires At([P, X, Q, R], i, a)
    ensures [P, X, Q, R][i].messages[a] == if i >= 1 && a == 0 then Plain(i, true) else Plain(i + 1, false)
    ensures a < 2 && (i == 0 ==> a == 0)
  {
    if i == 0 {} else if i == 1 {} else if i == 2 {} else { assert i == 3; }
  }

  /** The same four in the order P, X, Q, R are a good stream, so only the order is to blame. */
  lemma {:induction false} SameInGoodOrder()
    ensures GoodStream([P, X, Q, R]) && multiset([P, X, Q, R]) == multiset([P, Q, R, X])
  {
    var txs := [P, X, Q, R];
    forall i, a, j, b | At(txs, i, a) && At(txs, j, b)
      ensures GoodPair(txs[i].messages[a], txs[j].messages[b], i, a, j, b)
    {
      Listing(i, a);
      Listing(j, b);
    }
  }
}
