/** The detector's promises, stated on the delivered transactions alone. */
module DetectorTheorems {
  import opened Basics
  import opened Components
  import opened Detector
  import opened DetectorMessages
  import opened DetectorGraphs
  import opened DetectorInvariant
  import opened DetectorCounters
  import opened DetectorRuns
  import opened Sums

  /** The delivered transactions other than tick-tock ones, which the detector sets aside. */
  ghost function Ordinary(txs: seq<Tx>): (r: set<Tx>)
  {
    set t | t in txs && !t.tickTock
  }

  /** Two listed ends make up an ordinary message: sent by one transaction, received by the other. */
  ghost predicate SentAndReceived(m: Message, w: Message)
  {
    m.hash == w.hash && !m.isInput && w.isInput && IsOrdinary(m) && IsOrdinary(w)
  }

  /** Sender and receiver of every ordinary message with both ends delivered. */
  ghost function MessageLinks(txs: seq<Tx>): (r: set<(Hash, Hash)>)
  {
    set t, u, m, w | t in Ordinary(txs) && u in Ordinary(txs) && m in t.messages && w in u.messages
                  && SentAndReceived(m, w) :: (t.hash, u.hash)
  }

  ghost predicate OtherEndDelivered(txs: seq<Tx>, m: Message)
  {
    exists u, w :: u in Ordinary(txs) && w in u.messages && (SentAndReceived(m, w) || SentAndReceived(w, m))
  }

  /** Every ordinary message of these transactions has both ends delivered. */
  ghost predicate AllMatched(txs: seq<Tx>, s: set<Hash>)
  {
    forall t, m :: t in Ordinary(txs) && t.hash in s && m in t.messages && IsOrdinary(m) ==>
      OtherEndDelivered(txs, m)
  }

  /** Each of these is the hash of a delivered transaction. */
  ghost predicate Arrived(txs: seq<Tx>, s: set<Hash>)
  {
    forall h :: h in s ==> exists t :: t in Ordinary(txs) && t.hash == h
  }

  // ----- the history says the same as the stream -----

  lemma {:induction false} AddedEnds(ends: map<End, Tx>, tx: Tx, n: nat)
    requires n <= |tx.messages|
    ensures forall e :: e in ends ==> e in AddEnds(ends, tx, n)
    ensures forall a :: 0 <= a < n && GetMessageType(tx.messages[a]) == Ord ==>
      EndOf(tx.messages[a]) in AddEnds(ends, tx, n)
    decreases n
  {
    if n > 0 {
      AddedEnds(ends, tx, n - 1);
    }
  }

  lemma {:induction false} EndsContain(txs: seq<Tx>, i: nat, a: nat)
    requires At(txs, i, a) && !txs[i].tickTock && GetMessageType(txs[i].messages[a]) == Ord
    ensures EndOf(txs[i].messages[a]) in EndsOf(txs)
  {
    var k := |txs| - 1;
    if i < k {
      EndsContain(txs[..k], i, a);
    }
    if !txs[k].tickTock {
      AddedEnds(EndsOf(txs[..k]), txs[k], |txs[k].messages|);
    }
  }

  /** An ordinary end of a delivered transaction is in the history, with that transaction. */
  lemma {:induction false} EndsExactly(txs: seq<Tx>, t: Tx, m: Message)
    requires GoodStream(txs) && t in Ordinary(txs) && m in t.messages && GetMessageType(m) == Ord
    ensures EndOf(m) in EndsOf(txs) && EndsOf(txs)[EndOf(m)] == t
  {
    var i :| 0 <= i < |txs| && txs[i] == t;
    var a :| 0 <= a < |t.messages| && t.messages[a] == m;
    EndsContain(txs, i, a);
    var j, b := EndsListed(txs, EndOf(m));
    assert At(txs, i, a) && At(txs, j, b);
  }

  lemma {:induction false} EndsFromStream(txs: seq<Tx>, e: End) returns (m: Message)
    requires e in EndsOf(txs)
    ensures EndsOf(txs)[e] in Ordinary(txs) && m in EndsOf(txs)[e].messages && EndOf(m) == e && GetMessageType(m) == Ord
  {
    var i, a := EndsListed(txs, e);
    m := txs[i].messages[a];
  }

  lemma {:induction false} LinksAreMessages(txs: seq<Tx>)
    requires GoodStream(txs)
    ensures Links(EndsOf(txs)) == MessageLinks(txs)
  {
    var ends := EndsOf(txs);
    forall l | l in Links(ends) ensures l in MessageLinks(txs) {
      var e :| e in ends && !e.isInput && Other(e) in ends && l == (ends[e].hash, ends[Other(e)].hash);
      var m := EndsFromStream(txs, e);
      var w := EndsFromStream(txs, Other(e));
      assert SentAndReceived(m, w);
    }
    forall l | l in MessageLinks(txs) ensures l in Links(ends) {
      var t, u, m, w :| t in Ordinary(txs) && u in Ordinary(txs) && m in t.messages && w in u.messages
        && SentAndReceived(m, w) && l == (t.hash, u.hash);
      EndsExactly(txs, t, m);
      EndsExactly(txs, u, w);
      assert Other(EndOf(m)) == EndOf(w);
    }
  }

  lemma {:induction false} KnownIsOrdinary(txs: seq<Tx>, h: Hash)
    requires h in KnownOf(txs)
    ensures KnownOf(txs)[h] in Ordinary(txs) && KnownOf(txs)[h].hash == h
  {
    var i := KnownListed(txs, h);
  }

  lemma {:induction false} KnownHaveArrived(txs: seq<Tx>, s: set<Hash>)
    requires s <= KnownOf(txs).Keys
    ensures Arrived(txs, s)
  {
    forall h | h in s ensures exists t :: t in Ordinary(txs) && t.hash == h {
      KnownIsOrdinary(txs, h);
    }
  }

  lemma {:induction false} OrdinaryIsKnown(txs: seq<Tx>, t: Tx)
    requires GoodStream(txs) && t in Ordinary(txs)
    ensures t.hash in KnownOf(txs) && KnownOf(txs)[t.hash] == t
  {
    var k := |txs| - 1;
    PrefixGood(txs, k);
    if t in txs[..k] {
      OrdinaryIsKnown(txs[..k], t);
    }
  }

  /** Matched in the history means that the other end was delivered. */
  lemma {:induction false} MatchedIsDelivered(txs: seq<Tx>, t: Tx, m: Message)
    requires GoodStream(txs) && t in Ordinary(txs) && m in t.messages && GetMessageType(m) == Ord
    ensures Matched(EndsOf(txs), EndOf(m)) <==> OtherEndDelivered(txs, m)
  {
    var ends := EndsOf(txs);
    EndsExactly(txs, t, m);
    if Matched(ends, EndOf(m)) {
      var w := EndsFromStream(txs, Other(EndOf(m)));
      assert SentAndReceived(m, w) || SentAndReceived(w, m);
    }
    if OtherEndDelivered(txs, m) {
      var u, w :| u in Ordinary(txs) && w in u.messages && (SentAndReceived(m, w) || SentAndReceived(w, m));
      EndsExactly(txs, u, w);
      assert Other(EndOf(m)) == EndOf(w);
    }
  }

  lemma {:induction false} NothingOpenIsAllMatched(txs: seq<Tx>, s: set<Hash>)
    requires GoodStream(txs)
    ensures AllMatched(txs, s) <==>
      forall h :: h in s && h in KnownOf(txs) ==> Unmatched(EndsOf(txs), KnownOf(txs)[h]) == {}
  {
    var ends, known := EndsOf(txs), KnownOf(txs);
    if AllMatched(txs, s) {
      forall h | h in s && h in known ensures Unmatched(ends, known[h]) == {} {
        KnownIsOrdinary(txs, h);
        forall m | m in known[h].messages && GetMessageType(m) == Ord ensures Matched(ends, EndOf(m)) {
          MatchedIsDelivered(txs, known[h], m);
        }
      }
    }
    if forall h :: h in s && h in known ==> Unmatched(ends, known[h]) == {} {
      forall t, m | t in Ordinary(txs) && t.hash in s && m in t.messages && IsOrdinary(m)
        ensures OtherEndDelivered(txs, m)
      {
        OrdinaryIsKnown(txs, t);
        MatchedIsDelivered(txs, t, m);
        assert EndOf(m) in OrdEnds(known[t.hash]) && EndOf(m) !in Unmatched(ends, known[t.hash]);
      }
    }
  }

  // ----- the theorems -----

  ghost function Emitted(txs: seq<Tx>, tickTocks: bool): (r: seq<Graph>)
  {
    Run(Init(tickTocks), txs).emitted
  }

  lemma {:induction false} EmittedOkOnStream(txs: seq<Tx>, tickTocks: bool)
    requires GoodStream(txs)
    ensures EmittedOk(EndsOf(txs), KnownOf(txs), Emitted(txs, tickTocks))
  {
    RunKeepsInvariant(txs, tickTocks);
  }

  /** Soundness: every emitted event is exactly one connected component, all of whose ordinary messages have both
      ends inside it, with each of its links recorded once. */
  lemma {:induction false} EmittedIsClosedComponent(txs: seq<Tx>, tickTocks: bool, i: nat)
    requires GoodStream(txs) && i < |Emitted(txs, tickTocks)|
    ensures var g := Emitted(txs, tickTocks)[i];
      && Arrived(txs, g.txs.Keys) && IsComponent(MessageLinks(txs), g.txs.Keys)
      && AllMatched(txs, g.txs.Keys)
      && multiset(g.edges) == multiset(set l | l in MessageLinks(txs) && l.0 in g.txs)
  {
    var g := Emitted(txs, tickTocks)[i];
    EmittedOkOnStream(txs, tickTocks);
    LinksAreMessages(txs);
    forall h | h in g.txs ensures Unmatched(EndsOf(txs), KnownOf(txs)[h]) == {} {
      NothingOpen(EndsOf(txs), KnownOf(txs), g, h);
    }
    KnownHaveArrived(txs, g.txs.Keys);
    NothingOpenIsAllMatched(txs, g.txs.Keys);
    assert LinksFrom(EndsOf(txs), g.txs.Keys) == set l | l in MessageLinks(txs) && l.0 in g.txs;
  }

  /** No transaction is in two events. */
  lemma {:induction false} NoTransactionTwice(txs: seq<Tx>, tickTocks: bool, i: nat, j: nat, h: Hash)
    requires GoodStream(txs) && i < |Emitted(txs, tickTocks)| && j < |Emitted(txs, tickTocks)|
    requires h in Emitted(txs, tickTocks)[i].txs && h in Emitted(txs, tickTocks)[j].txs
    ensures i == j
  {
    EmittedOkOnStream(txs, tickTocks);
  }

  lemma {:induction false} LinkedHasMatched(txs: seq<Tx>, l: (Hash, Hash))
    requires GoodStream(txs) && l in MessageLinks(txs)
    ensures l.0 in KnownOf(txs) && l.1 in KnownOf(txs)
    ensures Unmatched(EndsOf(txs), KnownOf(txs)[l.0]) != OrdEnds(KnownOf(txs)[l.0])
  {
    var t, u, m, w :| t in Ordinary(txs) && u in Ordinary(txs) && m in t.messages && w in u.messages
      && SentAndReceived(m, w) && l == (t.hash, u.hash);
    OrdinaryIsKnown(txs, t);
    OrdinaryIsKnown(txs, u);
    EndsExactly(txs, t, m);
    EndsExactly(txs, u, w);
    assert Other(EndOf(m)) == EndOf(w);
    assert EndOf(m) in OrdEnds(t) && EndOf(m) !in Unmatched(EndsOf(txs), t);
  }

  /** Completeness: every component with at least one link and no open end has been emitted. */
  lemma {:induction false} ClosedComponentIsEmitted(txs: seq<Tx>, tickTocks: bool, s: set<Hash>, l: (Hash, Hash))
    returns (i: nat)
    requires GoodStream(txs) && IsComponent(MessageLinks(txs), s) && AllMatched(txs, s)
    requires l in MessageLinks(txs) && l.0 in s
    ensures i < |Emitted(txs, tickTocks)| && Emitted(txs, tickTocks)[i].txs.Keys == s
  {
    RunKeepsInvariant(txs, tickTocks);
    LinksAreMessages(txs);
    LinkedHasMatched(txs, l);
    NothingOpenIsAllMatched(txs, s);
    i := FindEmitted(Run(Init(tickTocks), txs), EndsOf(txs), KnownOf(txs), s, l.0);
  }

  lemma {:induction false} FindEmitted(st: State, ends: map<End, Tx>, known: map<Hash, Tx>, s: set<Hash>, h: Hash)
    returns (i: nat)
    requires Inv(st, ends, known) && IsComponent(Links(ends), s) && h in s
    requires h in known && Unmatched(ends, known[h]) != OrdEnds(known[h])
    requires forall x :: x in s && x in known ==> Unmatched(ends, known[x]) == {}
    ensures i < |st.emitted| && st.emitted[i].txs.Keys == s
  {
    NotActive(ends, known, st.events, s, h);
    assert InEmitted(st.emitted, h);
    i := EmittedWhole(ends, known, st.emitted, s, h);
  }

  lemma {:induction false} NotActive(ends: map<End, Tx>, known: map<Hash, Tx>, events: map<Hash, Graph>, s: set<Hash>,
                                     h: Hash)
    requires EventsOk(ends, known, events) && IsComponent(Links(ends), s) && h in s
    requires forall x :: x in s && x in known ==> Unmatched(ends, known[x]) == {}
    ensures h !in events
  {
    if h in events {
      SameComponent(Links(ends), events[h].txs.Keys, s, h);
      NothingLeft(ends, known, events[h]);
    }
  }

  lemma {:induction false} EmittedWhole(ends: map<End, Tx>, known: map<Hash, Tx>, emitted: seq<Graph>, s: set<Hash>,
                                        h: Hash) returns (i: nat)
    requires EmittedOk(ends, known, emitted) && IsComponent(Links(ends), s) && h in s && InEmitted(emitted, h)
    ensures i < |emitted| && emitted[i].txs.Keys == s
  {
    i :| 0 <= i < |emitted| && h in emitted[i].txs;
    SameComponent(Links(ends), emitted[i].txs.Keys, s, h);
  }

  lemma {:induction false} NothingLeft(ends: map<End, Tx>, known: map<Hash, Tx>, g: Graph)
    requires GraphOk(ends, known, g) && forall h :: h in g.txs ==> Unmatched(ends, known[h]) == {}
    ensures g.edgesLeft == 0
  {
    assert Open(ends, known, g.txs.Keys) == {};
  }

  lemma {:induction false} SameHashSameTx(txs: seq<Tx>, t: Tx, u: Tx)
    requires GoodStream(txs) && t in txs && u in txs && t.hash == u.hash
    ensures t == u
  {
    var i :| 0 <= i < |txs| && txs[i] == t;
    var j :| 0 <= j < |txs| && txs[j] == u;
  }

  lemma {:induction false} MemberInPrefix(txs: seq<Tx>, k: nat, s: set<Hash>, t: Tx)
    requires GoodStream(txs) && k <= |txs| && Arrived(txs[..k], s) && t in Ordinary(txs) && t.hash in s
    ensures t in Ordinary(txs[..k])
  {
    var u :| u in Ordinary(txs[..k]) && u.hash == t.hash;
    SameHashSameTx(txs, t, u);
  }

  lemma {:induction false} LinkAtArrival(txs: seq<Tx>, k: nat, s: set<Hash>, l: (Hash, Hash))
    requires GoodStream(txs) && k <= |txs| && Arrived(txs[..k], s)
    requires l in MessageLinks(txs) && l.0 in s && l.1 in s
    ensures l in MessageLinks(txs[..k])
  {
    var t, u, m, w :| t in Ordinary(txs) && u in Ordinary(txs) && m in t.messages && w in u.messages
      && SentAndReceived(m, w) && l == (t.hash, u.hash);
    MemberInPrefix(txs, k, s, t);
    MemberInPrefix(txs, k, s, u);
  }

  lemma {:induction false} FewerLinks(txs: seq<Tx>, k: nat)
    requires k <= |txs|
    ensures MessageLinks(txs[..k]) <= MessageLinks(txs) && Ordinary(txs[..k]) <= Ordinary(txs)
  {
    assert Ordinary(txs[..k]) <= Ordinary(txs);
  }

  lemma {:induction false} MatchedAtArrival(txs: seq<Tx>, k: nat, s: set<Hash>, t: Tx, m: Message)
    requires GoodStream(txs) && k <= |txs| && Arrived(txs[..k], s) && Closed(MessageLinks(txs), s)
    requires t in Ordinary(txs) && t.hash in s && m in t.messages && OtherEndDelivered(txs, m)
    ensures OtherEndDelivered(txs[..k], m)
  {
    var u, w :| u in Ordinary(txs) && w in u.messages && (SentAndReceived(m, w) || SentAndReceived(w, m));
    PartnerInside(txs, s, t, m, u, w);
    MemberInPrefix(txs, k, s, u);
  }

  lemma {:induction false} PartnerInside(txs: seq<Tx>, s: set<Hash>, t: Tx, m: Message, u: Tx, w: Message)
    requires Closed(MessageLinks(txs), s) && t in Ordinary(txs) && t.hash in s && m in t.messages
    requires u in Ordinary(txs) && w in u.messages && (SentAndReceived(m, w) || SentAndReceived(w, m))
    ensures u.hash in s
  {
    if SentAndReceived(m, w) {
      assert (t.hash, u.hash) in MessageLinks(txs);
    } else {
      assert (u.hash, t.hash) in MessageLinks(txs);
    }
  }

  /** A closed component is one as soon as all its members have arrived. */
  lemma {:induction false} ClosedAtArrival(txs: seq<Tx>, k: nat, s: set<Hash>)
    requires GoodStream(txs) && k <= |txs| && Arrived(txs[..k], s)
    requires IsComponent(MessageLinks(txs), s) && AllMatched(txs, s)
    ensures IsComponent(MessageLinks(txs[..k]), s) && AllMatched(txs[..k], s)
  {
    FewerLinks(txs, k);
    forall l | l in MessageLinks(txs) && l.0 in s ensures l in MessageLinks(txs[..k]) {
      LinkAtArrival(txs, k, s, l);
    }
    ComponentFewer(MessageLinks(txs), MessageLinks(txs[..k]), s);
    forall t, m | t in Ordinary(txs[..k]) && t.hash in s && m in t.messages && IsOrdinary(m)
      ensures OtherEndDelivered(txs[..k], m)
    {
      MatchedAtArrival(txs, k, s, t, m);
    }
  }

  /** Timeliness: a closed component is emitted at the very step that delivers its last transaction. */
  lemma {:induction false} EmittedOnLastArrival(txs: seq<Tx>, tickTocks: bool, s: set<Hash>, l: (Hash, Hash), k: nat)
    returns (i: nat)
    requires GoodStream(txs) && IsComponent(MessageLinks(txs), s) && AllMatched(txs, s)
    requires l in MessageLinks(txs) && l.0 in s
    requires k < |txs| && txs[k].hash in s && Arrived(txs[..k + 1], s)
    ensures i < |Emitted(txs[..k + 1], tickTocks)| && Emitted(txs[..k + 1], tickTocks)[i].txs.Keys == s
    ensures forall j :: 0 <= j < |Emitted(txs[..k], tickTocks)| ==> Emitted(txs[..k], tickTocks)[j].txs.Keys != s
  {
    PrefixGood(txs, k);
    PrefixGood(txs, k + 1);
    ClosedAtArrival(txs, k + 1, s);
    LinkAtArrival(txs, k + 1, s, l);
    i := ClosedComponentIsEmitted(txs[..k + 1], tickTocks, s, l);
    NextIsNew(txs, k);
    forall j | 0 <= j < |Emitted(txs[..k], tickTocks)| ensures Emitted(txs[..k], tickTocks)[j].txs.Keys != s {
      EmittedIsClosedComponent(txs[..k], tickTocks, j);
    }
  }

  /** The unmatched ends that belong to the graph's transactions. */
  ghost function Owned(edges: map<End, Tx>, g: Graph): (r: set<End>)
  {
    set e | e in edges && edges[e].hash in g.txs
  }

  lemma {:induction false} OwnedIsOpen(txs: seq<Tx>, g: Graph)
    requires GoodStream(txs) && GraphOk(EndsOf(txs), KnownOf(txs), g) && World(EndsOf(txs), KnownOf(txs))
    ensures Owned(Pending(EndsOf(txs)), g) == Open(EndsOf(txs), KnownOf(txs), g.txs.Keys)
  {
    var ends, known := EndsOf(txs), KnownOf(txs);
    forall e | e in Owned(Pending(ends), g) ensures e in Open(ends, known, g.txs.Keys) {
      assert e in Unmatched(ends, known[ends[e].hash]);
    }
    forall e | e in Open(ends, known, g.txs.Keys) ensures e in Owned(Pending(ends), g) {
      OpenIsOwned(txs, g, e);
    }
  }

  lemma {:induction false} OpenIsOwned(txs: seq<Tx>, g: Graph, e: End)
    requires GoodStream(txs) && g.txs.Keys <= KnownOf(txs).Keys && e in Open(EndsOf(txs), KnownOf(txs), g.txs.Keys)
    ensures e in Owned(Pending(EndsOf(txs)), g)
  {
    var ends, known := EndsOf(txs), KnownOf(txs);
    var h :| h in g.txs.Keys && e in Unmatched(ends, known[h]);
    KnownIsOrdinary(txs, h);
    var m :| m in known[h].messages && GetMessageType(m) == Ord && EndOf(m) == e;
    EndsExactly(txs, known[h], m);
  }

  /** Counters: between calls no merge has happened, the counter of an active event is positive and equals both the
      sum of its members' open ends and the number of waiting ends they own, and the number of active events is the
      number of distinct graphs. */
  lemma {:induction false} CountersExact(txs: seq<Tx>, tickTocks: bool, h: Hash)
    requires GoodStream(txs)
    ensures var st := Run(Init(tickTocks), txs);
      && st.merges == 0 && st.active == |st.events.Values| && st.finished == |st.emitted|
      && (h in st.events ==>
            var g := st.events[h];
            g.edgesLeft > 0 && g.edgesLeft == Sum(Opens(g.txs)) && g.edgesLeft == |Owned(st.edges, g)|)
  {
    RunKeepsInvariant(txs, tickTocks);
    var st := Run(Init(tickTocks), txs);
    if h in st.events {
      OwnedIsOpen(txs, st.events[h]);
      assert Balanced(st.events[h]);
    }
  }
}
