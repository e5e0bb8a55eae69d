/** The totals of a complete trace in which some transfers cannot be read: nothing at or below one of those counts. */
module BalanceReads {
  import opened Basics
  import opened Forest
  import opened Cycles
  import opened QueueLoops
  import opened Sums
  import opened Balances
  import opened BalanceTrace
  import opened BalanceConservation
  import opened BalanceFees
  import opened BalanceFeeTotals

  /** The place of the transaction that emitted the message consumed. */
  ghost function Emitter(t: Trace, j: nat): (e: nat)
    requires Complete(t) && j < |t.txs| && InHash(t.txs[j]) in t.from
    ensures j < e < |t.txs| && t.from[InHash(t.txs[j])].1 < |t.txs[e].outMsgs|
  {
    EmitterComesLater(t, j);
    t.from[InHash(t.txs[j])].0
  }

  /** Neither the transaction nor any one above it receives a transfer that cannot be read. */
  ghost predicate Counted(t: Trace, j: nat)
    requires Complete(t) && j < |t.txs|
    decreases |t.txs| - j
  {
    Readable(t.txs[j]) && (InHash(t.txs[j]) in t.from ==> Counted(t, Emitter(t, j)))
  }

  /** What an account pays for the message that the transaction consumes, if it was emitted in the trace. */
  ghost function Paid(t: Trace, j: nat, a: Address): (r: int)
    requires Complete(t) && j < |t.txs|
  {
    if InHash(t.txs[j]) !in t.from then 0
    else
      var m := t.txs[Emitter(t, j)].outMsgs[t.from[InHash(t.txs[j])].1];
      if m.source == Some(a) then OrZero(m.fwdFee) else 0
  }

  /** What the visits of a transaction and of its messages to nobody add. */
  ghost function Addition(t: Trace, wallets: Wallets, i: Item, j: nat): (r: int)
    requires Complete(t) && j < |t.txs| && t.txs[j].inMsg.Some?
  {
    match i
    case FeeOf(a) => Own(t.txs[j], a) + 2 * LogForwards(t.txs[j].outMsgs, a) + Paid(t, j, a)
    case _ => Effect(t.txs[j], wallets, i)
  }

  /** Over the transactions from the `n`-th on that count. */
  ghost function Additions(t: Trace, wallets: Wallets, i: Item, n: nat): (r: int)
    requires Complete(t) && n <= |t.txs|
    decreases |t.txs| - n
  {
    if n == |t.txs| then 0
    else
      CompleteIsWhole(t);
      (if Counted(t, n) then Addition(t, wallets, i, n) else 0) + Additions(t, wallets, i, n + 1)
  }

  // ----- which nodes the second traversal takes -----

  ghost function ReadShape(t: Trace, nodes: Nodes): (s: Shape<NodeId>)
  {
    Tree(t, nodes).(kids := ReadLinks(nodes))
  }

  lemma {:induction false} ReadShapeRanked(t: Trace, nodes: Nodes)
    requires Ranked(Tree(t, nodes))
    ensures Ranked(ReadShape(t, nodes))
  {
    var s, r := Tree(t, nodes), ReadShape(t, nodes);
    forall k, i | k in r.kids && 0 <= i < |r.kids[k]|
      ensures r.kids[k][i] in r.kids && r.rank[r.kids[k][i]] < r.rank[k]
    {
      assert s.kids[k] == r.kids[k];
    }
  }

  ghost function Only<T>(keys: set<T>, x: T): (w: map<T, int>)
  {
    map k | k in keys :: if k == x then 1 else 0
  }

  lemma {:induction false} OnlyCounts<T>(xs: seq<T>, keys: set<T>, x: T)
    requires forall i :: 0 <= i < |xs| ==> xs[i] in keys
    ensures Weighed(xs, Only(keys, x)) && Total(xs, Only(keys, x)) == multiset(xs)[x]
  {
    if xs != [] {
      OnlyCounts(xs[1..], keys, x);
      assert xs == [xs[0]] + xs[1..];
    }
  }

  /** The tree without the children of some nodes. */
  ghost predicate IsCut<T(!new)>(s: Shape<T>, r: Shape<T>, cut: set<T>, root: T)
  {
    && IsTree(s, root) && Ranked(r) && r.kids.Keys == s.kids.Keys
    && forall k :: k in s.kids ==> r.kids[k] == if k in cut then [] else s.kids[k]
  }

  ghost predicate IsAbove<T(!new)>(s: Shape<T>, cut: set<T>, x: T, p: T)
  {
    x in s.par && s.par[x] == p && p !in cut
  }

  lemma {:induction false} KidsWeight<T(!new)>(s: Shape<T>, r: Shape<T>, cut: set<T>, root: T, x: T, p: T)
    requires IsCut(s, r, cut, root) && p in s.kids
    ensures Weighed(r.kids[p], Only(s.kids.Keys, x))
    ensures Total(r.kids[p], Only(s.kids.Keys, x)) == if IsAbove(s, cut, x, p) then 1 else 0
  {
    assert SitsRight(s, p, x);
    OnlyCounts(r.kids[p], s.kids.Keys, x);
  }

  ghost predicate KidsWeighed<T(!new)>(r: Shape<T>, w: map<T, int>)
  {
    (forall p :: p in r.kids ==> p in w) && forall p :: p in r.kids ==> Weighed(r.kids[p], w)
  }

  /** A node is taken once if it is the root, and once for every time that it is a child of what is taken. */
  lemma {:induction false} TakenAsChild<T(!new)>(r: Shape<T>, root: T, x: T, order: seq<T>)
    requires Ranked(r) && root in r.kids && KidsWeighed(r, Only(r.kids.Keys, x)) && order == QueueOrder(r, [root])
    ensures Weighed(order, KidsTotals(r, Only(r.kids.Keys, x)))
    ensures multiset(order)[x] == (if x == root then 1 else 0) + Total(order, KidsTotals(r, Only(r.kids.Keys, x)))
  {
    OrderKnown(r, [root]);
    QueueTotal(r, [root], Only(r.kids.Keys, x));
    OnlyCounts(order, r.kids.Keys, x);
    OnlyCounts([root], r.kids.Keys, x);
  }

  lemma {:induction false} CutWeights<T(!new)>(s: Shape<T>, r: Shape<T>, cut: set<T>, root: T, x: T)
    requires IsCut(s, r, cut, root)
    ensures Ranked(r) && root in r.kids && r.kids.Keys == s.kids.Keys && (x in s.par ==> s.par[x] in s.kids)
    ensures KidsWeighed(r, Only(r.kids.Keys, x))
    ensures forall p :: p in r.kids ==>
      KidsTotals(r, Only(r.kids.Keys, x))[p] == if IsAbove(s, cut, x, p) then 1 else 0
  {
    var w := Only(r.kids.Keys, x);
    forall p | p in r.kids
      ensures Weighed(r.kids[p], w) && Total(r.kids[p], w) == if IsAbove(s, cut, x, p) then 1 else 0
    {
      KidsWeight(s, r, cut, root, x, p);
    }
  }

  /** How often a node is taken: as often as the node above it, if that is not cut. */
  lemma {:induction false} TakenAsParent<T(!new)>(s: Shape<T>, r: Shape<T>, cut: set<T>, root: T, x: T, order: seq<T>)
    requires IsCut(s, r, cut, root) && x in s.kids && order == QueueOrder(r, [root])
    ensures multiset(order)[x] == (if x == root then 1 else 0) +
      if x in s.par && s.par[x] !in cut then multiset(order)[s.par[x]] else 0
  {
    CutWeights(s, r, cut, root, x);
    FromWeights(s, r, cut, root, x, order);
  }

  lemma {:induction false} FromWeights<T(!new)>(s: Shape<T>, r: Shape<T>, cut: set<T>, root: T, x: T, order: seq<T>)
    requires Ranked(r) && root in r.kids && r.kids.Keys == s.kids.Keys && (x in s.par ==> s.par[x] in s.kids)
    requires KidsWeighed(r, Only(r.kids.Keys, x)) && order == QueueOrder(r, [root])
    requires forall p :: p in r.kids ==>
      KidsTotals(r, Only(r.kids.Keys, x))[p] == if IsAbove(s, cut, x, p) then 1 else 0
    ensures multiset(order)[x] == (if x == root then 1 else 0) +
      if x in s.par && s.par[x] !in cut then multiset(order)[s.par[x]] else 0
  {
    var w := KidsTotals(r, Only(r.kids.Keys, x));
    TakenAsChild(r, root, x, order);
    AboveTotal(s, cut, x, order, w);
  }

  lemma {:induction false} AboveTotal<T(!new)>(s: Shape<T>, cut: set<T>, x: T, order: seq<T>, w: map<T, int>)
    requires w.Keys == s.kids.Keys && Weighed(order, w)
    requires forall p :: p in w ==> w[p] == if IsAbove(s, cut, x, p) then 1 else 0
    ensures x in s.par && s.par[x] in s.kids && s.par[x] !in cut ==> Total(order, w) == multiset(order)[s.par[x]]
    ensures !(x in s.par && s.par[x] in s.kids && s.par[x] !in cut) ==> Total(order, w) == 0
  {
    if x in s.par && s.par[x] in s.kids && s.par[x] !in cut {
      OnlyCounts(order, s.kids.Keys, s.par[x]);
      assert w == Only(s.kids.Keys, s.par[x]);
    } else {
      TotalNothing(order, w);
    }
  }

  ghost function Unreads(nodes: Nodes): (r: set<NodeId>)
  {
    set id | id in nodes && Unread(nodes[id])
  }

  /** The node is taken: it is the root, or the transaction above it counts. */
  ghost predicate Reached(t: Trace, id: NodeId)
    requires Complete(t)
  {
    && id.tx in t.pos && t.pos[id.tx] < |t.txs|
    && var j := t.pos[id.tx];
      if id.OfLog? then Counted(t, j) else InHash(t.txs[j]) in t.from ==> Counted(t, Emitter(t, j))
  }

  lemma {:induction false} UnreadIs(t: Trace, nodes: Nodes, id: NodeId)
    requires Finished(t, nodes) && id in nodes && id.OfTx?
    ensures id.tx in t.pos && t.pos[id.tx] < |t.txs|
    ensures Unread(nodes[id]) <==> !Readable(t.txs[t.pos[id.tx]])
    ensures Counted(t, t.pos[id.tx]) <==> Reached(t, id) && !Unread(nodes[id])
  {
    BuiltNode(t, nodes, id);
  }

  /** How often a node is taken. */
  ghost function Times(t: Trace, nodes: Nodes, id: NodeId): (r: nat)
    requires t.txs != [] && Ranked(ReadShape(t, nodes)) && Root(t.txs) in nodes
  {
    multiset(QueueOrder(ReadShape(t, nodes), [Root(t.txs)]))[id]
  }

  lemma {:induction false} TimesAsAbove(t: Trace, nodes: Nodes, id: NodeId)
    requires t.txs != [] && IsTree(Tree(t, nodes), Root(t.txs)) && Ranked(ReadShape(t, nodes)) && id in nodes
    ensures id == Root(t.txs) ==> Times(t, nodes, id) == 1
    ensures id != Root(t.txs) ==> nodes[id].prev.Some? && nodes[id].prev.value in nodes
    ensures id != Root(t.txs) ==>
      Times(t, nodes, id) == if Unread(nodes[nodes[id].prev.value]) then 0 else Times(t, nodes, nodes[id].prev.value)
  {
    TakenAsParent(Tree(t, nodes), ReadShape(t, nodes), Unreads(nodes), Root(t.txs), id,
                  QueueOrder(ReadShape(t, nodes), [Root(t.txs)]));
    assert id != Root(t.txs) ==> id in Tree(t, nodes).par;
  }

  /** The node of a transaction that is reached is taken once, and no other. */
  lemma {:induction false} TakenTx(t: Trace, nodes: Nodes, j: nat)
    requires Finished(t, nodes) && j < |t.txs| && IsTree(Tree(t, nodes), Root(t.txs)) && Ranked(ReadShape(t, nodes))
    ensures Times(t, nodes, OfTx(t.txs[j].hash)) == if Reached(t, OfTx(t.txs[j].hash)) then 1 else 0
    decreases |t.txs| - j
  {
    var id := OfTx(t.txs[j].hash);
    NodeOf(t, nodes, j);
    BuiltNode(t, nodes, id);
    LastIsRoot(t, j);
    TimesAsAbove(t, nodes, id);
    if j < |t.txs| - 1 {
      NodeOf(t, nodes, |t.txs| - 1);
      var e := Emitter(t, j);
      NodeOf(t, nodes, e);
      TakenTx(t, nodes, e);
      UnreadIs(t, nodes, OfTx(t.txs[e].hash));
    }
  }

  lemma {:induction false} TakenLog(t: Trace, nodes: Nodes, id: NodeId)
    requires Finished(t, nodes) && t.txs != [] && IsTree(Tree(t, nodes), Root(t.txs)) && Ranked(ReadShape(t, nodes))
    requires id in nodes && id.OfLog?
    ensures Times(t, nodes, id) == if Reached(t, id) then 1 else 0
  {
    BuiltLog(t, nodes, id);
    var j := t.pos[id.tx];
    NodeOf(t, nodes, j);
    TimesAsAbove(t, nodes, id);
    TakenTx(t, nodes, j);
    UnreadIs(t, nodes, OfTx(t.txs[j].hash));
  }

  lemma {:induction false} TakenExactly(t: Trace, nodes: Nodes, id: NodeId)
    requires Finished(t, nodes) && t.txs != [] && IsTree(Tree(t, nodes), Root(t.txs)) && Ranked(ReadShape(t, nodes))
    requires id in nodes
    ensures Times(t, nodes, id) == if Reached(t, id) then 1 else 0
  {
    if id.OfLog? {
      TakenLog(t, nodes, id);
    } else {
      BuiltNode(t, nodes, id);
      TakenTx(t, nodes, t.pos[id.tx]);
    }
  }

  // ----- what the second traversal adds up -----

  /** What a node adds to the total: nothing if it is a transfer that cannot be read. */
  ghost function ReadAmounts(nodes: Nodes, wallets: Wallets, i: Item): (r: map<NodeId, int>)
  {
    map id | id in nodes && nodes[id].msg.Some? ::
      if Unread(nodes[id]) then 0
      else Amount(Moved(Visit(EMPTY, nodes[id], Prev(nodes, id)), nodes[id], wallets), i)
  }

  /** The ledger has what one visit adds, for every node of the list. */
  ghost predicate VisitsIn(nodes: Nodes, l: Ledger, order: seq<NodeId>)
  {
    forall k :: 0 <= k < |order| ==> order[k] in nodes && HasVisit(nodes, l, order[k])
  }

  lemma {:induction false} ReadTurn(nodes: Nodes, wallets: Wallets, l: Ledger, total: Changes, id: NodeId, i: Item)
    requires id in nodes && HasVisit(nodes, l, id)
    ensures Amount(SecondTurn(nodes, wallets, l, total, id).1, i)
      == Amount(total, i) + ReadAmounts(nodes, wallets, i)[id]
    ensures forall k :: k != id ==> (k in SecondTurn(nodes, wallets, l, total, id).0 <==> k in l)
    ensures forall k :: k in l && k != id ==> SecondTurn(nodes, wallets, l, total, id).0[k] == l[k]
  {
    var (m, t) := SecondTurn(nodes, wallets, l, total, id);
    if !Unread(nodes[id]) { MergeAmount(total, m[id], i); }
  }

  lemma {:induction false} ReadTotals(nodes: Nodes, wallets: Wallets, l: Ledger, total: Changes, order: seq<NodeId>,
                                      i: Item)
    requires Known(nodes, order) && Distinct(order) && VisitsIn(nodes, l, order)
    ensures Weighed(order, ReadAmounts(nodes, wallets, i))
    ensures Amount(SecondTurns(nodes, wallets, l, total, order).1, i)
      == Amount(total, i) + Total(order, ReadAmounts(nodes, wallets, i))
    decreases |order|
  {
    if order != [] {
      var (m, t) := SecondTurn(nodes, wallets, l, total, order[0]);
      ReadTurn(nodes, wallets, l, total, order[0], i);
      forall k | 0 <= k < |order[1..]| ensures order[1..][k] in nodes && HasVisit(nodes, m, order[1..][k]) {
        assert HasVisit(nodes, l, order[k + 1]) && order[k + 1] != order[0];
      }
      ReadTotals(nodes, wallets, m, t, order[1..], i);
    }
  }

  /** Both traversals of a complete trace, in the queue orders of the tree and of what can be read of it. */
  lemma {:induction false} TraversedReading(t: Trace, nodes: Nodes, wallets: Wallets, l: Ledger, total: Changes)
    requires Finished(t, nodes) && t.txs != [] && IsTree(Tree(t, nodes), Root(t.txs)) && Ranked(ReadShape(t, nodes))
    requires Traversed(nodes, Root(t.txs), wallets, l, total)
    ensures Broken(nodes) == {}
    ensures var root := Root(t.txs);
      var first, second := QueueOrder(Tree(t, nodes), [root]), QueueOrder(ReadShape(t, nodes), [root]);
      && Known(nodes, first) && Known(nodes, second)
      && (l, total) == SecondTurns(nodes, wallets, FirstTurns(nodes, map[], first), EMPTY, second)
      && forall k :: 0 <= k < |second| ==> second[k] !in Stuck(nodes)
  {
    var s, root := Tree(t, nodes), Root(t.txs);
    forall id | id in nodes ensures id !in Broken(nodes) {
      DryTakesAll(nodes, s, root, Broken(nodes), id);
    }
    NodeOf(t, nodes, |t.txs| - 1);
    DryTakesAll(nodes, s, root, Broken(nodes), root);
    OrderByRank(ReadLinks(nodes), Stuck(nodes), ReadShape(t, nodes), root);
    NoneStuck(nodes, root);
  }

  lemma {:induction false} NoneStuck(nodes: Nodes, root: NodeId)
    requires Inside(ReadLinks(nodes)) && root in nodes && RunsDry(ReadLinks(nodes), Stuck(nodes), root)
    ensures var order := Order(ReadLinks(nodes), Stuck(nodes), root);
      forall k :: 0 <= k < |order| ==> order[k] !in Stuck(nodes)
  {
    var n: nat :| Loop(ReadLinks(nodes), Stuck(nodes), [root], n) == Going([]);
    EndIs(ReadLinks(nodes), Stuck(nodes), root, n);
    TakenInside(ReadLinks(nodes), Stuck(nodes), [root], n);
  }

  /** What each node contributes: nothing if it is not reached or cannot be read. */
  ghost function Contributions(t: Trace, nodes: Nodes, wallets: Wallets, i: Item): (r: map<NodeId, int>)
    requires Complete(t)
  {
    map id | id in nodes && nodes[id].msg.Some? :: if Reached(t, id) then ReadAmounts(nodes, wallets, i)[id] else 0
  }

  lemma {:induction false} ReadOrderIsDistinct(t: Trace, nodes: Nodes, order: seq<NodeId>)
    requires Finished(t, nodes) && t.txs != [] && IsTree(Tree(t, nodes), Root(t.txs)) && Ranked(ReadShape(t, nodes))
    requires order == QueueOrder(ReadShape(t, nodes), [Root(t.txs)]) && Known(nodes, order)
    ensures Distinct(order) && forall id :: id in order <==> id in nodes && Reached(t, id)
  {
    forall i, j | 0 <= i < j < |order| ensures order[i] != order[j] {
      TakenExactly(t, nodes, order[i]);
      CountedOnceIsDistinct(order, i, j);
    }
    forall id ensures id in order <==> id in nodes && Reached(t, id) {
      assert id in order <==> id in multiset(order);
      if id in nodes { TakenExactly(t, nodes, id); }
    }
  }

  lemma {:induction false} SameTotal<T>(xs: seq<T>, u: map<T, int>, w: map<T, int>)
    requires Weighed(xs, u) && Weighed(xs, w) && forall i :: 0 <= i < |xs| ==> u[xs[i]] == w[xs[i]]
    ensures Total(xs, u) == Total(xs, w)
  {
    if xs != [] { SameTotal(xs[1..], u, w); }
  }

  lemma {:induction false} TotalOfRead(t: Trace, nodes: Nodes, wallets: Wallets, l: Ledger, total: Changes, i: Item)
    returns (second: seq<NodeId>)
    requires Finished(t, nodes) && t.txs != [] && IsTree(Tree(t, nodes), Root(t.txs)) && Ranked(ReadShape(t, nodes))
    requires Traversed(nodes, Root(t.txs), wallets, l, total)
    ensures Distinct(second) && forall id :: id in second <==> id in nodes && Reached(t, id)
    ensures Weighed(second, ReadAmounts(nodes, wallets, i))
    ensures Amount(total, i) == Total(second, ReadAmounts(nodes, wallets, i))
  {
    var first := QueueOrder(Tree(t, nodes), [Root(t.txs)]);
    second := QueueOrder(ReadShape(t, nodes), [Root(t.txs)]);
    TraversedReading(t, nodes, wallets, l, total);
    AllVisited(t, nodes, first, second);
    ReadOrderIsDistinct(t, nodes, second);
    TotalFromTurns(nodes, wallets, FirstTurns(nodes, map[], first), second, l, total, i);
  }

  lemma {:induction false} AllVisited(t: Trace, nodes: Nodes, first: seq<NodeId>, order: seq<NodeId>)
    requires Finished(t, nodes) && t.txs != [] && IsTree(Tree(t, nodes), Root(t.txs)) && Known(nodes, order)
    requires first == QueueOrder(Tree(t, nodes), [Root(t.txs)]) && Known(nodes, first)
    ensures VisitsIn(nodes, FirstTurns(nodes, map[], first), order)
  {
    VisitedOnce(t, nodes, Tree(t, nodes), Root(t.txs), first);
  }

  lemma {:induction false} TotalFromTurns(nodes: Nodes, wallets: Wallets, first: Ledger, order: seq<NodeId>, l: Ledger,
                                          total: Changes, i: Item)
    requires Known(nodes, order) && Distinct(order) && VisitsIn(nodes, first, order)
    requires (l, total) == SecondTurns(nodes, wallets, first, EMPTY, order)
    ensures Weighed(order, ReadAmounts(nodes, wallets, i))
    ensures Amount(total, i) == Total(order, ReadAmounts(nodes, wallets, i))
  {
    ReadTotals(nodes, wallets, first, EMPTY, order, i);
    assert Amount(EMPTY, i) == 0;
  }

  lemma {:induction false} OnlyReached(t: Trace, nodes: Nodes, wallets: Wallets, i: Item, second: seq<NodeId>,
                                       all: seq<NodeId>)
    requires Finished(t, nodes) && Distinct(second) && (forall id :: id in second <==> id in nodes && Reached(t, id))
    requires Distinct(all)
    requires (forall id :: id in all <==> id in nodes) && Weighed(second, ReadAmounts(nodes, wallets, i))
    ensures Weighed(all, Contributions(t, nodes, wallets, i))
    ensures Total(second, ReadAmounts(nodes, wallets, i)) == Total(all, Contributions(t, nodes, wallets, i))
  {
    AllHaveMessages(t, nodes);
    var w := Contributions(t, nodes, wallets, i);
    assert forall id :: id in nodes <==> id in w;
    SameTotal(second, ReadAmounts(nodes, wallets, i), w);
    TotalOnly(all, second, w);
  }

  /** The total is the sum of the contributions, over any listing of the nodes. */
  lemma {:induction false} TotalOfContributions(t: Trace, nodes: Nodes, wallets: Wallets, l: Ledger, total: Changes,
                                                i: Item, all: seq<NodeId>)
    requires Finished(t, nodes) && t.txs != [] && IsTree(Tree(t, nodes), Root(t.txs)) && Ranked(ReadShape(t, nodes))
    requires Traversed(nodes, Root(t.txs), wallets, l, total)
    requires Distinct(all) && forall id :: id in all <==> id in nodes
    ensures Weighed(all, Contributions(t, nodes, wallets, i))
    ensures Amount(total, i) == Total(all, Contributions(t, nodes, wallets, i))
  {
    var second := TotalOfRead(t, nodes, wallets, l, total, i);
    OnlyReached(t, nodes, wallets, i, second, all);
  }

  lemma {:induction false} AllHaveMessages(t: Trace, nodes: Nodes)
    requires Finished(t, nodes)
    ensures forall id :: id in nodes ==> nodes[id].msg.Some?
  {
    forall id | id in nodes ensures nodes[id].msg.Some? {
      if id.OfTx? { BuiltNode(t, nodes, id); } else { BuiltLog(t, nodes, id); }
    }
  }

  // ----- by transaction -----

  lemma {:induction false} IncomingIsPaid(t: Trace, nodes: Nodes, j: nat, a: Address)
    requires Finished(t, nodes) && j < |t.txs|
    ensures var id := OfTx(t.txs[j].hash);
      id in nodes && nodes[id].msg.Some? && Incoming(nodes[id], Prev(nodes, id), a) == Paid(t, j, a)
  {
    var id := OfTx(t.txs[j].hash);
    NodeOf(t, nodes, j);
    BuiltNode(t, nodes, id);
    LastIsRoot(t, j);
    if j < |t.txs| - 1 {
      var e, k := Emitter(t, j), t.from[InHash(t.txs[j])].1;
      ChildCharged(t, nodes, e, k, a);
      EmitterComesLater(t, j);
      ChildComesFirst(t, e, k);
      assert TxOk(t, j);
    } else {
      RootIsFree(t, nodes, a);
    }
  }

  /** What the node of a transaction contributes to the fees, the values and the jettons. */
  lemma {:induction false} TxContributes(t: Trace, nodes: Nodes, wallets: Wallets, i: Item, j: nat)
    requires Finished(t, nodes) && j < |t.txs| && Broken(nodes) == {}
    requires Reached(t, OfTx(t.txs[j].hash)) ==> OfTx(t.txs[j].hash) !in Stuck(nodes)
    ensures OfTx(t.txs[j].hash) in Contributions(t, nodes, wallets, i) && t.txs[j].inMsg.Some?
    ensures Contributions(t, nodes, wallets, i)[OfTx(t.txs[j].hash)] ==
      if !Counted(t, j) then 0
      else if i.FeeOf? then
        Own(t.txs[j], i.account) + LogForwards(t.txs[j].outMsgs, i.account) + Paid(t, j, i.account)
      else Effect(t.txs[j], wallets, i)
  {
    var id := OfTx(t.txs[j].hash);
    NodeOf(t, nodes, j);
    BuiltNode(t, nodes, id);
    UnreadIs(t, nodes, id);
    if Counted(t, j) {
      assert id !in Broken(nodes) && id !in Stuck(nodes);
      if i.FeeOf? {
        VisitFees(nodes[id], Prev(nodes, id), i.account);
        IncomingIsPaid(t, nodes, j, i.account);
      } else {
        NodeEffect(nodes[id], Prev(nodes, id), wallets, i);
      }
    }
  }

  /** What the node of a message to nobody contributes: its forward fee. */
  lemma {:induction false} LogContributes(t: Trace, nodes: Nodes, wallets: Wallets, i: Item, j: nat, k: nat)
    requires Finished(t, nodes) && j < |t.txs| && k < |t.txs[j].outMsgs| && IsLog(t.txs[j].outMsgs[k])
    requires Broken(nodes) == {}
    ensures var id, m := OfLog(t.txs[j].hash, k), t.txs[j].outMsgs[k];
      && id in nodes && id in Contributions(t, nodes, wallets, i)
      && Contributions(t, nodes, wallets, i)[id] ==
           if Counted(t, j) && i.FeeOf? && m.source == Some(i.account) then OrZero(m.fwdFee) else 0
  {
    var id := OfLog(t.txs[j].hash, k);
    LogOf(t, nodes, j, k);
    NodeOf(t, nodes, j);
    LogVisitable(t, nodes, j, k);
    assert id !in Broken(nodes);
    assert !IsTransfer(nodes[id]);
    if i.FeeOf? { ChildCharged(t, nodes, j, k, i.account); }
  }

  // ----- values and jettons -----

  lemma {:induction false} AdditionsTotal(t: Trace, nodes: Nodes, wallets: Wallets, i: Item, w: map<NodeId, int>,
                                          n: nat)
    requires Finished(t, nodes) && n <= |t.txs|
    requires forall j :: 0 <= j < |t.txs| ==> AddsRight(t, wallets, i, w, j)
    ensures Weighed(Ids(t.txs[n..]), w) && Total(Ids(t.txs[n..]), w) == Additions(t, wallets, i, n)
    decreases |t.txs| - n
  {
    if n < |t.txs| {
      AdditionsTotal(t, nodes, wallets, i, w, n + 1);
      assert AddsRight(t, wallets, i, w, n);
      assert t.txs[n..][1..] == t.txs[n + 1..];
      assert Ids(t.txs[n..])[1..] == Ids(t.txs[n + 1..]);
    }
  }

  /** The weight of a transaction's node is what it adds if it counts. */
  ghost predicate AddsRight(t: Trace, wallets: Wallets, i: Item, w: map<NodeId, int>, j: nat)
    requires Complete(t) && j < |t.txs|
  {
    && OfTx(t.txs[j].hash) in w && t.txs[j].inMsg.Some?
    && w[OfTx(t.txs[j].hash)] == if Counted(t, j) then Addition(t, wallets, i, j) else 0
  }

  lemma {:induction false} TxsAdd(t: Trace, nodes: Nodes, wallets: Wallets, i: Item)
    requires Finished(t, nodes) && Broken(nodes) == {} && !i.FeeOf?
    requires forall id :: id in nodes && Reached(t, id) ==> id !in Stuck(nodes)
    ensures forall j :: 0 <= j < |t.txs| ==> AddsRight(t, wallets, i, Contributions(t, nodes, wallets, i), j)
    ensures forall id :: id in nodes && id in Contributions(t, nodes, wallets, i) && id.OfLog? ==>
      Contributions(t, nodes, wallets, i)[id] == 0
  {
    forall j | 0 <= j < |t.txs| ensures AddsRight(t, wallets, i, Contributions(t, nodes, wallets, i), j) {
      NodeOf(t, nodes, j);
      TxContributes(t, nodes, wallets, i, j);
    }
    forall id | id in nodes && id.OfLog?
      ensures id in Contributions(t, nodes, wallets, i) && Contributions(t, nodes, wallets, i)[id] == 0
    {
      BuiltLog(t, nodes, id);
      LogContributes(t, nodes, wallets, i, t.pos[id.tx], id.index);
    }
  }

  // ----- fees -----

  /** The contributions of the messages to nobody alone. */
  ghost function LogPart(w: map<NodeId, int>): (r: map<NodeId, int>)
  {
    map id | id in w :: if id.OfLog? then w[id] else 0
  }

  ghost function TxPart(w: map<NodeId, int>): (r: map<NodeId, int>)
  {
    map id | id in w :: if id.OfLog? then 0 else w[id]
  }

  /** And with each transaction charged for its own messages to nobody. */
  ghost function FeeParts(t: Trace, nodes: Nodes, w: map<NodeId, int>, a: Address): (r: map<NodeId, int>)
    requires Complete(t)
  {
    map id | id in w && id in nodes ::
      if id.OfLog? then 0
      else w[id] + if id.tx in t.pos && t.pos[id.tx] < |t.txs| && Counted(t, t.pos[id.tx])
                   then LogForwards(nodes[id].tx.outMsgs, a) else 0
  }

  lemma {:induction false} LogPartOfChildren(t: Trace, nodes: Nodes, wallets: Wallets, a: Address, j: nat, n: nat)
    requires Finished(t, nodes) && j < |t.txs| && n <= |t.txs[j].outMsgs| && Broken(nodes) == {}
    ensures var w := LogPart(Contributions(t, nodes, wallets, FeeOf(a)));
      && Weighed(Children(t, t.txs[j], n), w)
      && Total(Children(t, t.txs[j], n), w) == if Counted(t, j) then LogForwards(t.txs[j].outMsgs[..n], a) else 0
  {
    var outs, w := t.txs[j].outMsgs, LogPart(Contributions(t, nodes, wallets, FeeOf(a)));
    if n > 0 {
      LogPartOfChildren(t, nodes, wallets, a, j, n - 1);
      var before, c := Children(t, t.txs[j], n - 1), ChildAt(t, t.txs[j], n - 1);
      assert Children(t, t.txs[j], n) == before + [c];
      LinkBothWays(t, nodes, j, n - 1);
      if IsLog(outs[n - 1]) { LogContributes(t, nodes, wallets, FeeOf(a), j, n - 1); }
      TotalConcat(before, [c], w);
      assert [c][1..] == [];
      assert outs[..n][..n - 1] == outs[..n - 1];
    }
  }

  lemma {:induction false} FeeCharges(t: Trace, nodes: Nodes, wallets: Wallets, a: Address, id: NodeId)
    requires Finished(t, nodes) && Broken(nodes) == {} && id in nodes
    ensures var w := Contributions(t, nodes, wallets, FeeOf(a));
      Charges(Tree(t, nodes), TxPart(w), LogPart(w), w, FeeParts(t, nodes, w, a), id)
  {
    AllHaveMessages(t, nodes);
    if id.OfLog? { BuiltLog(t, nodes, id); } else { LogPartBelow(t, nodes, wallets, a, id); }
  }

  lemma {:induction false} LogPartBelow(t: Trace, nodes: Nodes, wallets: Wallets, a: Address, id: NodeId)
    requires Finished(t, nodes) && Broken(nodes) == {} && id in nodes && id.OfTx?
    ensures id.tx in t.pos && t.pos[id.tx] < |t.txs|
    ensures var w := LogPart(Contributions(t, nodes, wallets, FeeOf(a)));
      && Weighed(nodes[id].next, w)
      && Total(nodes[id].next, w) == if Counted(t, t.pos[id.tx]) then LogForwards(nodes[id].tx.outMsgs, a) else 0
  {
    BuiltNode(t, nodes, id);
    var outs := t.txs[t.pos[id.tx]].outMsgs;
    LogPartOfChildren(t, nodes, wallets, a, t.pos[id.tx], |outs|);
    assert outs[..|outs|] == outs;
  }

  lemma {:induction false} FeePartsAdd(t: Trace, nodes: Nodes, wallets: Wallets, a: Address, j: nat)
    requires Finished(t, nodes) && Broken(nodes) == {} && j < |t.txs|
    requires forall id :: id in nodes && Reached(t, id) ==> id !in Stuck(nodes)
    ensures AddsRight(t, wallets, FeeOf(a), FeeParts(t, nodes, Contributions(t, nodes, wallets, FeeOf(a)), a), j)
  {
    NodeOf(t, nodes, j);
    BuiltNode(t, nodes, OfTx(t.txs[j].hash));
    TxContributes(t, nodes, wallets, FeeOf(a), j);
  }

  lemma {:induction false} FeeTotal(t: Trace, nodes: Nodes, wallets: Wallets, a: Address, all: seq<NodeId>)
    requires Finished(t, nodes) && t.txs != [] && IsTree(Tree(t, nodes), Root(t.txs)) && Broken(nodes) == {}
    requires forall id :: id in nodes && Reached(t, id) ==> id !in Stuck(nodes)
    requires all == QueueOrder(Tree(t, nodes), [Root(t.txs)]) && Distinct(all)
    requires forall id :: id in all <==> id in nodes
    ensures var w := Contributions(t, nodes, wallets, FeeOf(a));
      Weighed(all, w) && Total(all, w) == Additions(t, wallets, FeeOf(a), 0)
  {
    var w := Contributions(t, nodes, wallets, FeeOf(a));
    var s, root, parts := Tree(t, nodes), Root(t.txs), FeeParts(t, nodes, w, a);
    forall id | id in s.kids ensures Charges(s, TxPart(w), LogPart(w), w, parts, id) {
      FeeCharges(t, nodes, wallets, a, id);
    }
    AllHaveMessages(t, nodes);
    ChargedToParent(s, root, TxPart(w), LogPart(w), w, parts);
    forall j | 0 <= j < |t.txs| ensures AddsRight(t, wallets, FeeOf(a), parts, j) {
      FeePartsAdd(t, nodes, wallets, a, j);
    }
    AdditionsTotal(t, nodes, wallets, FeeOf(a), parts, 0);
    assert t.txs[0..] == t.txs;
    TotalOfIds(t, nodes, all, parts);
  }

  // ----- the theorem -----

  /** On every complete trace each amount of a result is the sum over the transactions that count. */
  lemma {:induction false} CountedExactly(t: Trace, wallets: Wallets, l: Ledger, total: Changes, i: Item)
    requires Complete(t) && IsResult(t.txs, wallets, l, total)
    ensures Amount(total, i) == Additions(t, wallets, i, 0)
  {
    var nodes := EveryChildIsFound(t);
    ReadShapeRanked(t, nodes);
    var all := QueueOrder(Tree(t, nodes), [Root(t.txs)]);
    TraversedReading(t, nodes, wallets, l, total);
    VisitedOnce(t, nodes, Tree(t, nodes), Root(t.txs), all);
    TotalOfContributions(t, nodes, wallets, l, total, i, all);
    ReadOrderIsDistinct(t, nodes, QueueOrder(ReadShape(t, nodes), [Root(t.txs)]));
    if i.FeeOf? {
      FeeTotal(t, nodes, wallets, i.account, all);
    } else {
      TxsAdd(t, nodes, wallets, i);
      AdditionsTotal(t, nodes, wallets, i, Contributions(t, nodes, wallets, i), 0);
      assert t.txs[0..] == t.txs;
      TotalOfIds(t, nodes, all, Contributions(t, nodes, wallets, i));
    }
  }

  /** The calculation on a complete trace: it fails exactly where a field is missing, and otherwise is balanced, and
      charges and moves exactly what the messages of the transactions that count say: all of them if every transfer can
      be read. */
  method CalculateCompleteTrace(txs: seq<Tx>, wallets: Wallets, ghost t: Trace) returns (r: Outcome)
    requires t.txs == txs && txs != [] && Complete(t)
    ensures r.MissingField? <==> SomeLacking(t)
    ensures r.MissingField? || (r.Found? && Balanced(r.total))
    ensures r.Found? ==> forall i: Item :: Amount(r.total, i) == Additions(t, wallets, i, 0)
    ensures r.Found? && (forall j :: 0 <= j < |txs| ==> Readable(txs[j])) ==>
      forall a :: Get(r.total.fees, a) == FeeShare(txs, a) + LogShare(txs, a)
    ensures r.Found? && (forall j :: 0 <= j < |txs| ==> Readable(txs[j])) ==>
      forall i: Item :: !i.FeeOf? ==> Amount(r.total, i) == Effects(txs, wallets, i)
  {
    ghost var nodes := EveryChildIsFound(t);
    MissingExactly(t, nodes);
    r := CalculateBalanceChanges(txs, wallets);
    if r.Found? {
      forall i: Item ensures Amount(r.total, i) == Additions(t, wallets, i, 0) {
        CountedExactly(t, wallets, r.ledger, r.total, i);
      }
    }
    if r.Found? && forall j :: 0 <= j < |txs| ==> Readable(txs[j]) {
      forall a ensures Get(r.total.fees, a) == FeeShare(txs, a) + LogShare(txs, a) {
        FeesExactly(t, wallets, r.ledger, r.total, a);
      }
      forall i: Item | !i.FeeOf? ensures Amount(r.total, i) == Effects(txs, wallets, i) {
        MovesOnce(t, wallets, r.ledger, r.total, i);
      }
    }
  }
}
