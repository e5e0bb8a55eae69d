/** Reassembly of a trace tree from a list of transactions, by message hash; nodes are named by their place in the
    list. */
module TraceAssembly {
  import opened Forest
  import opened Basics

  /** The parts of a transaction that the assembly reads. */
  datatype Tx = Tx(inMsg: Option<Hash>, outMsgs: seq<Hash>)

  /** The hash a transaction consumes; without an in-message it is the zero value of the type. */
  function InHash(tx: Tx): (h: Hash)
  {
    if tx.inMsg.Some? then tx.inMsg.value else NO_HASH
  }

  /** `pending` holds emitted and not yet consumed messages with the position of their sender. */
  datatype Assembly = Assembly(pending: map<Hash, nat>, root: Option<nat>, warning: bool, kids: seq<seq<nat>>)

  function Register(pending: map<Hash, nat>, msgs: seq<Hash>, i: nat): (r: map<Hash, nat>)
    ensures forall m :: m in r <==> m in pending || m in msgs
    ensures forall m :: m in r ==> r[m] == if m in msgs then i else pending[m]
    decreases |msgs|
  {
    if msgs == [] then pending else Register(pending[msgs[0] := i], msgs[1..], i)
  }

  ghost predicate InRange(a: Assembly)
  {
    && (forall m :: m in a.pending ==> a.pending[m] < |a.kids|)
    && (forall p, i :: 0 <= p < |a.kids| && 0 <= i < |a.kids[p]| ==> a.kids[p][i] < |a.kids|)
    && (a.root.Some? ==> a.root.value < |a.kids|)
  }

  /** One turn of the loop: the node's own out-messages are registered before its parent is looked up. */
  function Attach(a: Assembly, tx: Tx): (r: Assembly)
    requires InRange(a)
    ensures InRange(r) && |r.kids| == |a.kids| + 1
  {
    var i := |a.kids|;
    var pending := Register(a.pending, tx.outMsgs, i);
    var kids := a.kids + [[]];
    var m := InHash(tx);
    if m in pending then
      Assembly(pending - {m}, a.root, a.warning, kids[pending[m] := kids[pending[m]] + [i]])
    else if a.root.None? then
      Assembly(pending, Some(i), a.warning, kids)
    else
      Assembly(pending, a.root, true, kids)
  }

  function Assemble(txs: seq<Tx>): (r: Assembly)
    ensures InRange(r) && |r.kids| == |txs|
  {
    if txs == [] then Assembly(map[], None, false, [])
    else Attach(Assemble(txs[..|txs| - 1]), txs[|txs| - 1])
  }

  // ----- the parent of every node, and what the loop makes of it -----

  /** The node under which the loop hangs the next transaction, if any. */
  function Lookup(a: Assembly, tx: Tx): (r: Option<nat>)
    requires InRange(a)
    ensures r.Some? ==> r.value <= |a.kids|
  {
    var pending := Register(a.pending, tx.outMsgs, |a.kids|);
    if InHash(tx) in pending then Some(pending[InHash(tx)]) else None
  }

  function Parents(txs: seq<Tx>): (r: seq<Option<nat>>)
    ensures |r| == |txs|
    ensures forall i :: 0 <= i < |r| && r[i].Some? ==> r[i].value <= i
  {
    if txs == [] then []
    else Parents(txs[..|txs| - 1]) + [Lookup(Assemble(txs[..|txs| - 1]), txs[|txs| - 1])]
  }

  lemma {:induction false} AttachMeans(a: Assembly, tx: Tx)
    requires InRange(a)
    ensures var b := Attach(a, tx); var p := Lookup(a, tx); var n := |a.kids|;
      && (forall k :: 0 <= k < n ==> b.kids[k] == a.kids[k] + if p == Some(k) then [n] else [])
      && b.kids[n] == (if p == Some(n) then [n] else [])
      && b.root == (if a.root.None? && p.None? then Some(n) else a.root)
      && b.warning == (a.warning || (a.root.Some? && p.None?))
  {
  }

  ghost predicate KidsAre(a: Assembly, pars: seq<Option<nat>>)
  {
    |a.kids| == |pars| && forall p :: 0 <= p < |pars| ==> a.kids[p] == ChildrenIn(pars, p)
  }

  lemma {:induction false} KidsStep(a: Assembly, pars: seq<Option<nat>>, tx: Tx)
    requires InRange(a) && KidsAre(a, pars)
    requires forall i :: 0 <= i < |pars| && pars[i].Some? ==> pars[i].value < |pars|
    ensures KidsAre(Attach(a, tx), pars + [Lookup(a, tx)])
  {
    var after := pars + [Lookup(a, tx)];
    forall p | 0 <= p < |after| ensures Attach(a, tx).kids[p] == ChildrenIn(after, p) {
      KidStep(a, pars, tx, p);
    }
  }

  lemma {:induction false} KidStep(a: Assembly, pars: seq<Option<nat>>, tx: Tx, p: nat)
    requires InRange(a) && |a.kids| == |pars| && p <= |pars| && (p < |pars| ==> a.kids[p] == ChildrenIn(pars, p))
    requires forall i :: 0 <= i < |pars| && pars[i].Some? ==> pars[i].value < |pars|
    ensures Attach(a, tx).kids[p] == ChildrenIn(pars + [Lookup(a, tx)], p)
  {
    var after, n := pars + [Lookup(a, tx)], |pars|;
    AttachMeans(a, tx);
    if p == n { NoChildrenYet(pars, n); }
    assert after[..n] == pars;
  }

  /** The child list of every node is the list of nodes that found it as parent, in list order. */
  lemma {:induction false} KidsFromParents(txs: seq<Tx>)
    ensures KidsAre(Assemble(txs), Parents(txs))
  {
    if txs != [] {
      var n := |txs| - 1;
      KidsFromParents(txs[..n]);
      KidsStep(Assemble(txs[..n]), Parents(txs[..n]), txs[n]);
    }
  }

  ghost predicate TwoRoots(pars: seq<Option<nat>>)
  {
    exists i, j :: 0 <= i < j < |pars| && pars[i].None? && pars[j].None?
  }

  /** The first node that found no parent is the root, and any further one raises the warning. */
  lemma {:induction false} RootFromParents(txs: seq<Tx>)
    ensures Assemble(txs).root == FirstRoot(Parents(txs))
    ensures Assemble(txs).warning <==> TwoRoots(Parents(txs))
  {
    if txs != [] {
      var n := |txs| - 1;
      var before := txs[..n];
      RootFromParents(before);
      AttachMeans(Assemble(before), txs[n]);
      assert Parents(txs)[..n] == Parents(before);
      FirstRootFound(Parents(before));
      TwoRootsAfter(Parents(txs));
    }
  }

  lemma {:induction false} TwoRootsAfter(pars: seq<Option<nat>>)
    requires pars != []
    ensures var n := |pars| - 1;
      TwoRoots(pars) <==> TwoRoots(pars[..n]) || (pars[n].None? && exists i :: 0 <= i < n && pars[i].None?)
  {
    var n := |pars| - 1;
    if TwoRoots(pars[..n]) {
      var i, j :| 0 <= i < j < n && pars[..n][i].None? && pars[..n][j].None?;
      assert pars[i].None? && pars[j].None?;
    }
    if TwoRoots(pars) {
      var i, j :| 0 <= i < j < |pars| && pars[i].None? && pars[j].None?;
      if j < n {
        assert pars[..n][i].None? && pars[..n][j].None?;
      }
    }
  }

  lemma {:induction false} FirstRootFound(pars: seq<Option<nat>>)
    ensures FirstRoot(pars).None? <==> forall i :: 0 <= i < |pars| ==> pars[i].Some?
    ensures FirstRoot(pars).Some? ==>
      var r := FirstRoot(pars).value;
      r < |pars| && pars[r].None? && forall i :: 0 <= i < r ==> pars[i].Some?
  {
    if pars != [] {
      FirstRootFound(pars[..|pars| - 1]);
    }
  }

  lemma {:induction false} NoChildrenYet(pars: seq<Option<nat>>, p: nat)
    requires forall i :: 0 <= i < |pars| && pars[i].Some? ==> pars[i].value < p
    ensures ChildrenIn(pars, p) == []
  {
    if pars != [] {
      NoChildrenYet(pars[..|pars| - 1], p);
    }
  }

  // ----- the parent, described by the list alone -----

  /** Message `m`, last emitted by transaction `j`, is still unconsumed after the first `n` transactions. */
  ghost predicate OpenFrom(txs: seq<Tx>, n: nat, m: Hash, j: nat)
    requires n <= |txs|
  {
    && j < n
    && m in txs[j].outMsgs
    && (forall k :: j < k < n ==> m !in txs[k].outMsgs)
    && (forall k :: j <= k < n ==> InHash(txs[k]) != m)
  }

  ghost predicate PendingIs(pending: map<Hash, nat>, txs: seq<Tx>, n: nat)
    requires n <= |txs|
  {
    && (forall m :: m in pending ==> OpenFrom(txs, n, m, pending[m]))
    && (forall m, j: nat :: OpenFrom(txs, n, m, j) ==> m in pending && pending[m] == j)
  }

  /** Transaction `i` consumes a message that the earlier transaction `p` emitted and nobody consumed since. */
  ghost predicate ParentOf(txs: seq<Tx>, i: nat, p: nat)
    requires i < |txs|
  {
    OpenFrom(txs, i, InHash(txs[i]), p)
  }

  ghost predicate Attachable(txs: seq<Tx>, i: nat)
    requires i < |txs|
  {
    exists p :: ParentOf(txs, i, p)
  }

  predicate ConsumesOwn(tx: Tx)
  {
    InHash(tx) in tx.outMsgs
  }

  ghost predicate NoSelfConsumption(txs: seq<Tx>)
  {
    forall i :: 0 <= i < |txs| ==> !ConsumesOwn(txs[i])
  }

  /** Transaction `i` finds no parent: it consumes neither its own message nor an open one of an earlier transaction. */
  ghost predicate Orphan(txs: seq<Tx>, i: nat)
    requires i < |txs|
  {
    !ConsumesOwn(txs[i]) && !Attachable(txs, i)
  }

  lemma {:induction false} PendingDescribed(txs: seq<Tx>)
    ensures PendingIs(Assemble(txs).pending, txs, |txs|)
  {
    if txs != [] {
      var n := |txs| - 1;
      PendingDescribed(txs[..n]);
      PendingPrefix(Assemble(txs[..n]).pending, txs, n);
      PendingAfter(Assemble(txs[..n]), txs);
    }
  }

  lemma {:induction false} PendingAfter(a: Assembly, txs: seq<Tx>)
    requires txs != [] && InRange(a) && |a.kids| == |txs| - 1
    requires PendingIs(a.pending, txs, |txs| - 1)
    ensures PendingIs(Attach(a, txs[|txs| - 1]).pending, txs, |txs|)
  {
    var n := |txs| - 1;
    var b := Attach(a, txs[n]);
    forall m, j: nat | OpenFrom(txs, |txs|, m, j) ensures m in b.pending && b.pending[m] == j {
      if j < n {
        assert OpenFrom(txs, n, m, j);
      }
    }
    forall m | m in b.pending ensures OpenFrom(txs, |txs|, m, b.pending[m]) {
      if m !in txs[n].outMsgs {
        assert OpenFrom(txs, n, m, a.pending[m]);
      }
    }
  }

  /** The loop finds the transaction itself if it consumes its own message, and otherwise exactly the described
      parent. */
  lemma {:induction false} ParentsDescribed(txs: seq<Tx>, i: nat)
    requires i < |txs|
    ensures Parents(txs)[i] == Some(i) <==> ConsumesOwn(txs[i])
    ensures Parents(txs)[i].Some? && !ConsumesOwn(txs[i]) ==>
      Parents(txs)[i].value < i && ParentOf(txs, i, Parents(txs)[i].value)
    ensures forall p: nat :: ParentOf(txs, i, p) && !ConsumesOwn(txs[i]) ==> Parents(txs)[i] == Some(p)
    ensures Parents(txs)[i].None? <==> Orphan(txs, i)
  {
    ParentsPrefix(txs, i);
    PendingDescribed(txs[..i]);
    PendingPrefix(Assemble(txs[..i]).pending, txs, i);
    LookupMeans(Assemble(txs[..i]), txs, i);
  }

  lemma {:induction false} PendingPrefix(pending: map<Hash, nat>, txs: seq<Tx>, n: nat)
    requires n <= |txs| && PendingIs(pending, txs[..n], n)
    ensures PendingIs(pending, txs, n)
  {
    assert forall m, j: nat :: OpenFrom(txs[..n], n, m, j) == OpenFrom(txs, n, m, j);
  }

  lemma {:induction false} LookupMeans(a: Assembly, txs: seq<Tx>, i: nat)
    requires i < |txs| && InRange(a) && |a.kids| == i && PendingIs(a.pending, txs, i)
    ensures ConsumesOwn(txs[i]) ==> Lookup(a, txs[i]) == Some(i)
    ensures !ConsumesOwn(txs[i]) ==>
      && (Lookup(a, txs[i]).Some? ==> ParentOf(txs, i, Lookup(a, txs[i]).value))
      && (forall p: nat :: ParentOf(txs, i, p) ==> Lookup(a, txs[i]) == Some(p))
  {
  }

  lemma {:induction false} ParentsPrefix(txs: seq<Tx>, i: nat)
    requires i < |txs|
    ensures Parents(txs)[i] == Lookup(Assemble(txs[..i]), txs[i])
  {
    if i < |txs| - 1 {
      var before := txs[..|txs| - 1];
      ParentsPrefix(before, i);
      assert before[..i] == txs[..i];
    }
  }

  // ----- the main results -----

  /** The pointer structure that the assembly builds, as a forest over list positions. */
  ghost function ShapeOf(a: Assembly, pars: seq<Option<nat>>): (s: Shape<nat>)
  {
    Shape(map i | i in Positions(|a.kids|) :: a.kids[i], ParentMap(pars), Descending(|pars|), |pars| + 1)
  }

  lemma {:induction false} ShapeFromParents(a: Assembly, pars: seq<Option<nat>>)
    requires KidsAre(a, pars)
    ensures ShapeOf(a, pars) == ParentListShape(pars)
  {
    assert ShapeOf(a, pars).kids == ParentListShape(pars).kids;
  }

  /** Where nobody consumes its own message the result is acyclic: an attached node's parent is earlier in the list,
      and it is that parent's child exactly once. */
  lemma {:induction false} AssemblyIsForest(txs: seq<Tx>)
    requires NoSelfConsumption(txs)
    ensures forall i :: 0 <= i < |txs| && Parents(txs)[i].Some? ==> Parents(txs)[i].value < i
    ensures IsForest(ShapeOf(Assemble(txs), Parents(txs)))
  {
    var pars := Parents(txs);
    forall i | 0 <= i < |txs| && pars[i].Some? ensures pars[i].value < i {
      ParentsDescribed(txs, i);
    }
    KidsFromParents(txs);
    ShapeFromParents(Assemble(txs), pars);
    ParentListIsForest(pars);
  }

  /** A transaction is its own child exactly if it consumes its own message. */
  lemma {:induction false} OwnChild(txs: seq<Tx>, i: nat)
    requires i < |txs|
    ensures i in Assemble(txs).kids[i] <==> ConsumesOwn(txs[i])
  {
    KidsFromParents(txs);
    ChildrenInCounts(Parents(txs), i, i);
    ParentsDescribed(txs, i);
    assert i in Assemble(txs).kids[i] <==> i in multiset(ChildrenIn(Parents(txs), i));
  }

  /** The result is a forest if and only if nobody consumes its own message. */
  lemma {:induction false} ForestExactly(txs: seq<Tx>)
    ensures IsForest(ShapeOf(Assemble(txs), Parents(txs))) <==> NoSelfConsumption(txs)
  {
    if NoSelfConsumption(txs) { AssemblyIsForest(txs); }
    if i :| 0 <= i < |txs| && ConsumesOwn(txs[i]) {
      OwnChild(txs, i);
      var s := ShapeOf(Assemble(txs), Parents(txs));
      var c :| 0 <= c < |s.kids[i]| && s.kids[i][c] == i;
      assert !Ranked(s);
    }
  }

  ghost predicate TwoOrphans(txs: seq<Tx>)
  {
    exists i, j :: 0 <= i < j < |txs| && Orphan(txs, i) && Orphan(txs, j)
  }

  /** On any list the root is the first transaction that neither consumes its own message nor finds an open one, none
      if there is no such, and the warning says that there are two. */
  lemma {:induction false} RootAndWarning(txs: seq<Tx>)
    ensures Assemble(txs).root.None? <==> forall i :: 0 <= i < |txs| ==> !Orphan(txs, i)
    ensures Assemble(txs).root.Some? ==>
      var r := Assemble(txs).root.value;
      r < |txs| && Orphan(txs, r) && forall i :: 0 <= i < r ==> !Orphan(txs, i)
    ensures Assemble(txs).warning <==> TwoOrphans(txs)
  {
    RootFromParents(txs);
    FirstRootFound(Parents(txs));
    OrphansHaveNoParent(txs);
    TwoRootsAreOrphans(txs, Parents(txs));
  }

  lemma {:induction false} OrphansHaveNoParent(txs: seq<Tx>)
    ensures forall i :: 0 <= i < |txs| ==> (Parents(txs)[i].None? <==> Orphan(txs, i))
  {
    forall i | 0 <= i < |txs| ensures Parents(txs)[i].None? <==> Orphan(txs, i) {
      ParentsDescribed(txs, i);
    }
  }

  lemma {:induction false} TwoRootsAreOrphans(txs: seq<Tx>, pars: seq<Option<nat>>)
    requires |pars| == |txs| && forall i :: 0 <= i < |txs| ==> (pars[i].None? <==> Orphan(txs, i))
    ensures TwoRoots(pars) <==> TwoOrphans(txs)
  {
    if TwoRoots(pars) {
      var i, j :| 0 <= i < j < |pars| && pars[i].None? && pars[j].None?;
      assert Orphan(txs, i) && Orphan(txs, j);
    }
    if TwoOrphans(txs) {
      var i, j :| 0 <= i < j < |txs| && Orphan(txs, i) && Orphan(txs, j);
      assert pars[i].None? && pars[j].None?;
    }
  }

  /** The first transaction is the root exactly if it does not consume its own message, and then there is no warning
      exactly if every later one consumes its own message or one that an earlier one emitted and nobody has consumed
      since. */
  lemma {:induction false} WarningExactly(txs: seq<Tx>)
    requires txs != []
    ensures Assemble(txs).root == Some(0) <==> !ConsumesOwn(txs[0])
    ensures !ConsumesOwn(txs[0]) ==>
      (!Assemble(txs).warning <==> forall i :: 0 < i < |txs| ==> ConsumesOwn(txs[i]) || Attachable(txs, i))
  {
    RootAndWarning(txs);
    assert !Attachable(txs, 0);
    if !ConsumesOwn(txs[0]) {
      assert Orphan(txs, 0);
      if i :| 0 < i < |txs| && !ConsumesOwn(txs[i]) && !Attachable(txs, i) { assert Orphan(txs, i); }
    }
  }

  /** Where nobody consumes its own message and there is no warning, every transaction is reached from the root
      exactly once. */
  lemma {:induction false} ReachedExactlyOnce(txs: seq<Tx>)
    requires NoSelfConsumption(txs) && txs != []
    requires !Assemble(txs).warning
    ensures IsTree(ShapeOf(Assemble(txs), Parents(txs)), 0)
    ensures multiset(Unfold(ShapeOf(Assemble(txs), Parents(txs)), |txs| + 1, [0])) == multiset(Positions(|txs|))
  {
    AssemblyIsForest(txs);
    KidsFromParents(txs);
    ShapeFromParents(Assemble(txs), Parents(txs));
    OneRoot(txs);
    SingleRootIsTree(Parents(txs));
    TreeUnfoldsOnce(ParentListShape(Parents(txs)), 0);
  }

  lemma {:induction false} TreeHasOneRoot(a: Assembly, pars: seq<Option<nat>>, r: nat)
    requires |a.kids| == |pars| && IsTree(ShapeOf(a, pars), r)
    ensures r < |pars| && !TwoRoots(pars)
  {
    var s := ShapeOf(a, pars);
    forall i | 0 <= i < |pars| && pars[i].None? ensures i == r {
      assert i in s.kids && i !in s.par;
    }
  }

  /** The result is a tree below some node if and only if the list is not empty, nobody consumes its own message and
      every transaction but the first consumes one that an earlier one emitted and nobody has consumed since. */
  lemma {:induction false} TreeExactly(txs: seq<Tx>)
    ensures (exists r :: IsTree(ShapeOf(Assemble(txs), Parents(txs)), r))
      <==> txs != [] && NoSelfConsumption(txs) && forall i :: 0 < i < |txs| ==> Attachable(txs, i)
  {
    if txs != [] { WarningExactly(txs); }
    if txs != [] && NoSelfConsumption(txs) && !Assemble(txs).warning {
      ReachedExactlyOnce(txs);
    }
    if r :| IsTree(ShapeOf(Assemble(txs), Parents(txs)), r) {
      ForestExactly(txs);
      RootFromParents(txs);
      TreeHasOneRoot(Assemble(txs), Parents(txs), r);
    }
  }

  lemma {:induction false} OneRoot(txs: seq<Tx>)
    requires NoSelfConsumption(txs) && txs != []
    ensures Parents(txs)[0].None? && Assemble(txs).root == Some(0)
    ensures !Assemble(txs).warning <==> forall i :: 0 < i < |txs| ==> Parents(txs)[i].Some?
  {
    ParentsDescribed(txs, 0);
    RootFromParents(txs);
    FirstRootFound(Parents(txs));
  }

  /** The smallest such list: a node that is its own child, no root and no warning. */
  lemma {:induction false} SelfConsumptionLosesTheTrace(m: Hash)
    ensures var a := Assemble([Tx(Some(m), [m])]);
      a.kids == [[0]] && a.root.None? && !a.warning
  {
    var tx := Tx(Some(m), [m]);
    var none: seq<Tx> := [];
    assert [tx][..0] == none;
    AttachMeans(Assemble(none), tx);
    assert Lookup(Assemble(none), tx) == Some(0);
    assert Assemble([tx]).kids == [[0]];
  }
}
