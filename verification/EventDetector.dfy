/** The detector on heap objects, one shared event graph per active event, proved against the value-level detector. */
module EventDetector {
  import opened Basics
  import D = Detector

  class EventGraph {
    var txs: map<Hash, D.Slot>
    var edges: seq<(Hash, Hash)>
    var edgesLeft: int

    ghost function Value(): (g: D.Graph)
      reads this
    {
      D.Graph(txs, edges, edgesLeft)
    }

    constructor (left: D.Tx, right: D.Tx)
      ensures Value() == D.AddEdge(D.EMPTY, left, right)
    {
      txs, edges, edgesLeft := map[], [], 0;
      new;
      AddEdge(left, right);
    }

    method AddTx(tx: D.Tx)
      modifies this
      ensures Value() == D.AddTx(old(Value()), tx)
    {
      if tx.hash in txs { return; }
      var count := 0;
      for i := 0 to |tx.messages|
        invariant count == D.OrdCount(tx.messages[..i])
      {
        assert tx.messages[..i + 1][..i] == tx.messages[..i];
        if D.GetMessageType(tx.messages[i]) == D.Ord { count := count + 1; }
      }
      assert tx.messages[..|tx.messages|] == tx.messages;
      txs := txs[tx.hash := D.Slot(Some(tx), count)];
      edgesLeft := edgesLeft + count;
    }

    /** Takes one open end off a member, and forgets its transaction when none is left. */
    method CloseEnd(h: Hash)
      requires h in txs
      modifies this`txs
      ensures txs == old(txs)[h := D.CloseOne(old(txs)[h])]
    {
      txs := txs[h := D.Slot(txs[h].tx, txs[h].open - 1)];
      if txs[h].open == 0 {
        txs := txs[h := D.Slot(None, txs[h].open)];
      }
    }

    method AddEdge(left: D.Tx, right: D.Tx)
      modifies this
      ensures Value() == D.AddEdge(old(Value()), left, right)
    {
      AddTx(left);
      AddTx(right);
      CloseEnd(left.hash);
      CloseEnd(right.hash);
      edges := edges + [(left.hash, right.hash)];
      edgesLeft := edgesLeft - 2;
    }

    /** Takes over the transactions and edges of the other graph, one transaction at a time. */
    method MergeWith(right: EventGraph)
      modifies this
      ensures Value() == D.MergeWith(old(Value()), old(right.Value()))
    {
      var from, more := right.txs, right.edges;
      var left := from.Keys;
      ghost var base := txs;
      while left != {}
        invariant left <= from.Keys
        invariant txs == base + map h | h in from.Keys - left :: from[h]
        invariant edges == old(edges) && edgesLeft == old(edgesLeft)
        decreases left
      {
        var h :| h in left;
        txs, left := txs[h := from[h]], left - {h};
      }
      assert (map h | h in from.Keys :: from[h]) == from;
      edges := edges + more;
    }

    method CheckFinished() returns (done: bool)
      ensures done <==> edgesLeft == 0
    {
      done := edgesLeft == 0;
    }
  }

  class EdgeDetector {
    const insertTickTocks: bool
    var edges: map<D.End, D.Tx>
    var events: map<Hash, EventGraph>
    var activeEvents: int
    var finishedEvents: int
    var mergeCount: int
    var foundEdges: int
    var ignoredTxs: int
    var others: seq<(Hash, bool)>
    var emitted: seq<D.Graph>
    ghost var Repr: set<EventGraph>

    /** Every member of an active graph points to the one object of that graph. */
    ghost predicate Valid()
      reads this`events, this`Repr, Repr
    {
      forall h :: h in events ==> events[h] in Repr && h in events[h].txs && Owns(events[h])
    }

    /** The members of `event` point to it. */
    ghost predicate Owns(event: EventGraph)
      reads this`events, event
    {
      forall k :: k in event.txs ==> k in events && events[k] == event
    }

    ghost function Events(): (r: map<Hash, D.Graph>)
      requires Valid()
      reads this`events, this`Repr, Repr
    {
      map h | h in events :: events[h].Value()
    }

    ghost function View(): (s: D.State)
      requires Valid()
      reads this, Repr
    {
      D.State(edges, Events(), activeEvents, finishedEvents, mergeCount, foundEdges, ignoredTxs, others,
              emitted, insertTickTocks)
    }

    constructor (insertTickTocks: bool)
      ensures Valid() && View() == D.Init(insertTickTocks) && Repr == {}
    {
      this.insertTickTocks := insertTickTocks;
      edges, events := map[], map[];
      activeEvents, finishedEvents, mergeCount, foundEdges, ignoredTxs := 0, 0, 0, 0, 0;
      others, emitted := [], [];
      Repr := {};
    }

    /** All of `keys` point to `event`. */
    method Repoint(keys: set<Hash>, event: EventGraph)
      modifies this`events
      ensures events == old(events) + map h | h in keys :: event
    {
      var left := keys;
      while left != {}
        invariant left <= keys
        invariant events == old(events) + map h | h in keys - left :: event
        decreases left
      {
        var h :| h in left;
        events, left := events[h := event], left - {h};
      }
    }

    /** The graphs are the earlier ones or new. */
    twostate predicate Grown()
      reads this`Repr
    {
      forall o :: o in Repr ==> o in old(Repr) || fresh(o)
    }

    /** `event` is the graph of exactly its members. */
    ghost predicate Holds(event: EventGraph)
      reads this`events, event
    {
      && Owns(event)
      && (forall h :: h in events && h !in event.txs ==> events[h] != event)
    }

    lemma {:induction false} AlreadyPoints(event: EventGraph)
      requires Valid() && Holds(event)
      ensures D.PointTo(Events(), event.Value()) == Events()
    {
    }

    /** Writes the event out and forgets its members. */
    method Emit(event: EventGraph)
      requires Valid() && Holds(event)
      modifies this`events, this`finishedEvents, this`activeEvents, this`emitted
      ensures Valid() && events == old(events) - event.txs.Keys
      ensures Events() == old(Events()) - event.txs.Keys
      ensures finishedEvents == old(finishedEvents) + 1 && activeEvents == old(activeEvents) - 1
      ensures emitted == old(emitted) + [event.Value()]
    {
      events := events - event.txs.Keys;
      finishedEvents, activeEvents := finishedEvents + 1, activeEvents - 1;
      emitted := emitted + [D.Graph(event.txs, event.edges, event.edgesLeft)];
    }

    /** Emits a finished event, or leaves it active. */
    method Settle(event: EventGraph, ghost g: D.Graph)
      requires Valid() && Holds(event) && event.Value() == g
      modifies this`events, this`finishedEvents, this`activeEvents, this`emitted
      ensures Valid() && View() == D.CheckFinished(old(View()), g)
    {
      AlreadyPoints(event);
      var done := event.CheckFinished();
      if done { Emit(event); }
      SameState(View(), D.CheckFinished(old(View()), g));
    }

    /** Every member of `event` now points to it, and nothing else has changed. */
    twostate predicate Repointed(new event: EventGraph)
      reads this, event, Repr
      requires forall h :: h in events ==> events[h] in Repr
    {
      && events.Keys == old(events.Keys) + event.txs.Keys
      && (forall h :: h in events && h in event.txs ==> events[h] == event)
      && (forall h :: h in events && h !in event.txs ==> Elsewhere(event, h))
    }

    /** The transaction is in another graph, as before. */
    twostate predicate Elsewhere(new event: EventGraph, h: Hash)
      reads this, event, Repr
      requires h in events && events[h] in Repr
    {
      && h in old(events) && events[h] == old(events[h]) && events[h] != event
      && events[h].Value() == old(events[h].Value())
      && events[h].txs.Keys !! event.txs.Keys
    }

    twostate lemma {:induction false} RepointedMeans(new event: EventGraph)
      requires old(Valid()) && event in Repr && old(Repr) <= Repr && (forall h :: h in events ==> events[h] in Repr)
      requires Repointed(event)
      ensures Valid() && Holds(event)
      ensures Events() == D.PointTo(old(Events()), event.Value())
    {
      PointToIs(old(Events()), Events(), event.Value());
      forall h | h in events
        ensures h in events[h].txs && forall k :: k in events[h].txs ==> k in events && events[k] == events[h]
      {
        if h !in event.txs {
          assert old(events[h]).txs == old(events[h].txs);
        }
      }
    }

    // In the steps below, `g` is the value that the event of the edge is to have, `was` the earlier graphs.

    /** A first edge between two transactions that are in no event. */
    method Create(left: D.Tx, right: D.Tx, ghost g: D.Graph) returns (event: EventGraph)
      requires Valid() && left.hash !in events && right.hash !in events
      requires g == D.AddEdge(D.EMPTY, left, right)
      modifies this`events, this`Repr
      ensures Valid() && Holds(event) && fresh(event) && Repr == old(Repr) + {event}
      ensures event.Value() == g && Events() == D.PointTo(old(Events()), g)
    {
      event := new EventGraph(left, right);
      Repr := Repr + {event};
      events := events[left.hash := event][right.hash := event];
      assert event.txs.Keys == {left.hash, right.hash};
      forall h | h in events && h !in event.txs ensures Elsewhere(event, h) {
        assert old(Owns(events[h]));
      }
      RepointedMeans(event);
    }

    /** A further edge of an event, from or to a transaction that is in none. */
    method Grow(event: EventGraph, left: D.Tx, right: D.Tx, newcomer: Hash, ghost g: D.Graph)
      requires Valid() && Holds(event) && event in Repr && newcomer !in events
      requires event.txs.Keys + {left.hash, right.hash} == event.txs.Keys + {newcomer}
      requires g == D.AddEdge(event.Value(), left, right)
      modifies this`events, event
      ensures Valid() && Holds(event)
      ensures event.Value() == g && Events() == D.PointTo(old(Events()), g)
    {
      event.AddEdge(left, right);
      events := events[newcomer := event];
      assert event.txs.Keys == old(event.txs).Keys + {newcomer};
      RepointedMeans(event);
    }

    /** The two graphs merged into the left one, and the edge added. */
    method Absorb(event: EventGraph, other: EventGraph, left: D.Tx, right: D.Tx, ghost g: D.Graph)
      requires left.hash in event.txs && right.hash in other.txs
      requires g == D.AddEdge(D.MergeWith(event.Value(), other.Value()), left, right)
      modifies event
      ensures event.Value() == g && event.txs.Keys == old(event.txs.Keys) + old(other.txs.Keys)
    {
      event.MergeWith(other);
      event.AddEdge(left, right);
    }

    /** And the transactions of the right one pointed to it. */
    method Combine(event: EventGraph, other: EventGraph, left: D.Tx, right: D.Tx, ghost g: D.Graph)
      requires left.hash in event.txs && right.hash in other.txs
      requires g == D.AddEdge(D.MergeWith(event.Value(), other.Value()), left, right)
      modifies this`events, event
      ensures event.Value() == g && event.txs.Keys == old(event.txs.Keys) + old(other.txs.Keys)
      ensures events == old(events) + map h | h in old(other.txs.Keys) :: event
    {
      Absorb(event, other, left, right, g);
      Repoint(other.txs.Keys, event);
    }

    twostate lemma {:induction false} MergedIsRepointed(new event: EventGraph, other: EventGraph)
      requires old(Valid()) && Repr == old(Repr) && event in old(Repr) && other in Repr
      requires old(Owns(event)) && old(Owns(other)) && event.txs.Keys == old(event.txs.Keys) + old(other.txs.Keys)
      requires events == old(events) + map h | h in old(other.txs.Keys) :: event
      requires forall o :: o in Repr && o != event ==> o.Value() == old(o.Value())
      requires forall h :: h in events ==> events[h] in Repr
      ensures Valid() && Holds(event)
      ensures Events() == D.PointTo(old(Events()), event.Value())
    {
      forall h | h in events && h !in event.txs ensures Elsewhere(event, h) {
        assert old(h in events && events[h] in Repr && Owns(events[h]));
        assert old(events[h]) != event && old(events[h]) != other;
      }
      RepointedMeans(event);
    }

    /** An edge between two transactions that are both in events. */
    method Merge(left: D.Tx, right: D.Tx, ghost g: D.Graph) returns (event: EventGraph)
      requires Valid() && left.hash in events && right.hash in events
      requires g == D.AddEdge(D.MergeWith(events[left.hash].Value(), events[right.hash].Value()), left, right)
      modifies this`events, events[left.hash]
      ensures Valid() && Holds(event) && event == old(events[left.hash])
      ensures event.Value() == g && Events() == D.PointTo(old(Events()), g)
    {
      event := events[left.hash];
      var other := events[right.hash];
      Combine(event, other, left, right, g);
      MergedIsRepointed(event, other);
    }

    /** The counters of active events and of merges. */
    method CountEdge(left: D.Tx, right: D.Tx)
      requires Valid()
      modifies this`activeEvents, this`mergeCount
      ensures Valid() && Events() == old(Events())
      ensures activeEvents == old(activeEvents) + D.Opened(events.Keys, left, right)
      ensures mergeCount == old(mergeCount) + D.Merged(events.Keys, left, right)
    {
      if left.hash !in events && right.hash !in events {
        activeEvents := activeEvents + 1;
      } else if left.hash in events && right.hash in events {
        activeEvents, mergeCount := activeEvents - 1, mergeCount + 1;
      }
    }

    /** The event that takes the edge, with all its members pointing to it. */
    method Join(left: D.Tx, right: D.Tx, ghost was: map<Hash, D.Graph>, ghost g: D.Graph) returns (event: EventGraph)
      requires Valid() && was == Events() && g == D.AddEdge(D.Base(was, left, right), left, right)
      modifies this`events, this`Repr, Repr
      ensures Valid() && Holds(event)
      ensures Repr == old(Repr) || (fresh(event) && Repr == old(Repr) + {event})
      ensures event.Value() == g && Events() == D.PointTo(was, g)
    {
      if left.hash !in events && right.hash !in events {
        event := Create(left, right, g);
      } else if left.hash in events && right.hash !in events {
        event := events[left.hash];
        MembersHold(left.hash);
        Grow(event, left, right, right.hash, g);
      } else if left.hash !in events && right.hash in events {
        event := events[right.hash];
        MembersHold(right.hash);
        Grow(event, left, right, left.hash, g);
      } else {
        event := Merge(left, right, g);
      }
    }

    /** The edge counted and added. */
    method Attach(left: D.Tx, right: D.Tx, ghost was: map<Hash, D.Graph>, ghost g: D.Graph) returns (event: EventGraph)
      requires Valid() && was == Events() && g == D.AddEdge(D.Base(was, left, right), left, right)
      modifies this`events, this`activeEvents, this`mergeCount, this`Repr, Repr
      ensures Valid() && Holds(event) && Grown()
      ensures event.Value() == g && Events() == D.PointTo(was, g)
      ensures activeEvents == old(activeEvents) + D.Opened(old(events.Keys), left, right)
      ensures mergeCount == old(mergeCount) + D.Merged(old(events.Keys), left, right)
    {
      CountEdge(left, right);
      event := Join(left, right, was, g);
    }

    /** An edge between two transactions: counted, added, and the event checked for being finished. */
    method OnEdge(left: D.Tx, right: D.Tx)
      requires Valid()
      modifies this`events, this`activeEvents, this`mergeCount, this`finishedEvents, this`emitted, this`Repr, Repr
      ensures Valid() && View() == D.OnEdge(old(View()), left, right)
      ensures Grown()
    {
      ghost var before := View();
      ghost var g := D.AddEdge(D.Base(before.events, left, right), left, right);
      var event := Attach(left, right, before.events, g);
      EdgeAttached(before, View(), g, left, right);
      Settle(event, g);
    }

    lemma {:induction false} MembersHold(h: Hash)
      requires Valid() && h in events
      ensures Holds(events[h])
    {
    }

    /** Takes the waiting end out. */
    method TakeEnd(e: D.End) returns (tx: D.Tx)
      requires Valid() && e in edges
      modifies this`edges, this`foundEdges
      ensures Valid() && tx == old(edges)[e]
      ensures View() == old(View()).(edges := old(edges) - {e}, found := old(foundEdges) + 1)
    {
      tx := edges[e];
      edges, foundEdges := edges - {e}, foundEdges + 1;
      SameState(View(), old(View()).(edges := old(edges) - {e}, found := old(foundEdges) + 1));
    }

    /** Keeps an end that waits for its other one. */
    method AddEnd(e: D.End, tx: D.Tx)
      requires Valid()
      modifies this`edges
      ensures Valid() && View() == old(View()).(edges := old(edges)[e := tx])
    {
      edges := edges[e := tx];
      SameState(View(), old(View()).(edges := old(edges)[e := tx]));
    }

    /** One message of a transaction. */
    method OnMessage(tx: D.Tx, m: D.Message) returns (counted: bool)
      requires Valid()
      modifies this, Repr
      ensures Valid() && View() == D.OnMessage(old(View()), tx, m)
      ensures counted == D.Counts(old(View()), m)
      ensures Grown()
    {
      var other := D.Other(D.EndOf(m));
      counted := other in edges || D.GetMessageType(m) == D.Ord;
      if other in edges {
        ghost var before := View();
        var tx2 := TakeEnd(other);
        ghost var taken := View();
        if m.isInput {
          OnEdge(tx2, tx);
          assert View() == D.OnEdge(taken, tx2, tx);
          InputTaken(before, tx, m);
        } else {
          OnEdge(tx, tx2);
          assert View() == D.OnEdge(taken, tx, tx2);
          OutputTaken(before, tx, m);
        }
      } else if D.GetMessageType(m) == D.Ord {
        AddEnd(D.EndOf(m), tx);
      }
    }

    /** Hands the transaction to the queue of the others. */
    method InsertOther(hash: Hash, isTickTock: bool)
      requires Valid()
      modifies this`others
      ensures Valid() && View() == old(View()).(others := old(others) + [(hash, isTickTock)])
    {
      others := others + [(hash, isTickTock)];
      SameState(View(), old(View()).(others := old(others) + [(hash, isTickTock)]));
    }

    /** The loop over the messages, with its count. */
    method OnMessages(tx: D.Tx) returns (count: nat)
      requires Valid()
      modifies this, Repr
      ensures Valid() && (View(), count) == D.OnMessages(old(View()), tx, 0, 0)
      ensures Grown()
    {
      count := 0;
      for i := 0 to |tx.messages|
        invariant Valid() && Grown()
        invariant D.OnMessages(View(), tx, i, count) == D.OnMessages(old(View()), tx, 0, 0)
      {
        var counted := OnMessage(tx, tx.messages[i]);
        if counted { count := count + 1; }
      }
    }

    /** One transaction of the stream. */
    method ProcessTx(tx: D.Tx)
      requires Valid()
      modifies this, Repr
      ensures Valid() && View() == D.ProcessTx(old(View()), tx)
      ensures Grown()
    {
      if tx.tickTock {
        if insertTickTocks { InsertOther(tx.hash, true); }
        return;
      }
      var count := OnMessages(tx);
      if count == 0 {
        InsertOther(tx.hash, false);
        CountIgnored();
      }
    }

    method CountIgnored()
      requires Valid()
      modifies this`ignoredTxs
      ensures Valid() && View() == old(View()).(ignored := old(ignoredTxs) + 1)
    {
      ignoredTxs := ignoredTxs + 1;
      SameState(View(), old(View()).(ignored := old(ignoredTxs) + 1));
    }
  }

  // The value-level step, composed from the views before and after each heap step.

  lemma {:induction false} SameState(s: D.State, t: D.State)
    requires s.edges == t.edges && s.events == t.events && s.others == t.others && s.emitted == t.emitted
    requires s.active == t.active && s.finished == t.finished && s.merges == t.merges
    requires s.found == t.found && s.ignored == t.ignored && s.insertTickTocks == t.insertTickTocks
    ensures s == t
  {
  }

  /** Pointing the members to the graph first makes no difference to the check. */
  lemma {:induction false} EdgeAttached(s: D.State, t: D.State, g: D.Graph, left: D.Tx, right: D.Tx)
    requires g == D.AddEdge(D.Base(s.events, left, right), left, right)
    requires s.edges == t.edges && s.others == t.others && s.emitted == t.emitted && s.finished == t.finished
    requires s.found == t.found && s.ignored == t.ignored && s.insertTickTocks == t.insertTickTocks
    requires t.events == D.PointTo(s.events, g)
    requires t.active == s.active + D.Opened(s.events.Keys, left, right)
    requires t.merges == s.merges + D.Merged(s.events.Keys, left, right)
    ensures D.CheckFinished(t, g) == D.OnEdge(s, left, right)
  {
    assert D.PointTo(s.events, g) - g.txs.Keys == s.events - g.txs.Keys;
    assert D.PointTo(D.PointTo(s.events, g), g) == D.PointTo(s.events, g);
  }

  lemma {:induction false} InputTaken(s: D.State, tx: D.Tx, m: D.Message)
    requires D.Other(D.EndOf(m)) in s.edges && m.isInput
    ensures var other := D.Other(D.EndOf(m));
      D.OnMessage(s, tx, m) == D.OnEdge(s.(edges := s.edges - {other}, found := s.found + 1), s.edges[other], tx)
  {
  }

  lemma {:induction false} OutputTaken(s: D.State, tx: D.Tx, m: D.Message)
    requires D.Other(D.EndOf(m)) in s.edges && !m.isInput
    ensures var other := D.Other(D.EndOf(m));
      D.OnMessage(s, tx, m) == D.OnEdge(s.(edges := s.edges - {other}, found := s.found + 1), tx, s.edges[other])
  {
  }

  lemma {:induction false} PointToIs(before: map<Hash, D.Graph>, after: map<Hash, D.Graph>, g: D.Graph)
    requires after.Keys == before.Keys + g.txs.Keys
    requires forall h :: h in after ==> after[h] == if h in g.txs then g else before[h]
    ensures after == D.PointTo(before, g)
  {
  }
}
