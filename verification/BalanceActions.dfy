/** The balance changes of one action: those of its transactions, merged in whatever order the node map is walked. */
module BalanceActions {
  import opened Basics
  import opened Balances

  /** The changes of the selected transactions whose nodes are among `keys`, in the order of the selection. */
  function Picked(nodes: map<Hash, Changes>, selected: seq<Hash>, keys: set<Hash>): (r: seq<Changes>)
    requires keys <= nodes.Keys
  {
    if selected == [] then []
    else
      var rest := Picked(nodes, selected[..|selected| - 1], keys);
      var h := selected[|selected| - 1];
      if h in keys then rest + [nodes[h]] else rest
  }

  lemma {:induction false} MergeCommutes(c: Changes, d: Changes)
    ensures Merge(c, d) == Merge(d, c)
  {
    assert Together(c.value, d.value) == Together(d.value, c.value);
    assert Together(c.fees, d.fees) == Together(d.fees, c.fees);
    forall o
      ensures Together(Holding(c.jettons, o), Holding(d.jettons, o))
        == Together(Holding(d.jettons, o), Holding(c.jettons, o))
    {
    }
    assert TogetherJettons(c.jettons, d.jettons) == TogetherJettons(d.jettons, c.jettons);
  }

  lemma {:induction false} MergeOneMore(done: seq<Changes>, c: Changes)
    ensures Merge(MergeAll(done), c) == MergeAll(done + [c])
  {
    var all := done + [c];
    MergeMoved(all, |done|);
    assert all[..|done|] + all[|done| + 1..] == done;
    MergeCommutes(MergeAll(done), c);
  }

  /** One more node adds its changes once for every time its transaction is selected. */
  lemma {:induction false} PickedOneMore(nodes: map<Hash, Changes>, selected: seq<Hash>, keys: set<Hash>, h: Hash)
    requires keys <= nodes.Keys && h in nodes && h !in keys
    ensures multiset(Picked(nodes, selected, keys + {h}))
      == multiset(Picked(nodes, selected, keys)) + multiset(Picked(nodes, selected, {h}))
  {
    if selected != [] { PickedOneMore(nodes, selected[..|selected| - 1], keys, h); }
  }

  /** The inner loop: the node's changes are merged once for every selected transaction that is its own. */
  method MergeNode(total: BalanceChanges, h: Hash, c: Changes, selected: seq<Hash>, ghost nodes: map<Hash, Changes>,
                   ghost done: seq<Changes>)
    requires h in nodes && nodes[h] == c && total.Contents() == MergeAll(done)
    modifies total
    ensures total.Contents() == MergeAll(done + Picked(nodes, selected, {h}))
  {
    assert done + [] == done;
    for i := 0 to |selected|
      invariant total.Contents() == MergeAll(done + Picked(nodes, selected[..i], {h}))
    {
      ghost var picked := Picked(nodes, selected[..i], {h});
      assert selected[..i + 1][..i] == selected[..i];
      if selected[i] == h {
        total.MergeWith(c);
        MergeOneMore(done + picked, c);
        assert done + picked + [c] == done + (picked + [c]);
      }
    }
    assert selected[..|selected|] == selected;
  }

  /** The nodes that the traversals reached. */
  ghost function Reached(nodes: map<Hash, Option<Changes>>): (r: map<Hash, Changes>)
  {
    map h | h in nodes && nodes[h].Some? :: nodes[h].value
  }

  /** Whatever order the nodes come in, the action fails if and only if a selected node has no changes, and otherwise
      the result is the merge of the selected changes, taken in any order. */
  method ActionBalance(nodes: map<Hash, Option<Changes>>, selected: seq<Hash>) returns (r: Option<Changes>)
    ensures r.None? <==> exists h :: h in selected && h in nodes && nodes[h].None?
    ensures r.Some? ==> forall i: Item :: Amount(r.value, i) == SelectedAmount(nodes, selected, i)
    ensures r.Some? ==> forall cs ::
      multiset(cs) == multiset(Picked(Reached(nodes), selected, Reached(nodes).Keys)) ==> r.value == MergeAll(cs)
  {
    var total := new BalanceChanges(EMPTY);
    var left := nodes.Keys;
    ghost var reached, done: seq<Changes> := Reached(nodes), [];
    NothingPicked(reached, selected);
    assert reached.Keys - left == {};
    while left != {}
      invariant left <= nodes.Keys && total.Contents() == MergeAll(done)
      invariant multiset(done) == multiset(Picked(reached, selected, reached.Keys - left))
      invariant forall h :: h in selected && h in nodes && nodes[h].None? ==> h in left
      decreases left
    {
      var h :| h in left;
      ghost var keys := reached.Keys - left;
      left := left - {h};
      if nodes[h].None? {
        if h in selected { return None; }
        assert reached.Keys - left == keys;
      } else {
        MergeNode(total, h, nodes[h].value, selected, reached, done);
        PickedOneMore(reached, selected, keys, h);
        assert keys + {h} == reached.Keys - left;
        done := done + Picked(reached, selected, {h});
      }
    }
    assert reached.Keys - left == reached.Keys;
    forall cs | multiset(cs) == multiset(Picked(reached, selected, reached.Keys))
      ensures total.Contents() == MergeAll(cs)
    {
      MergeAnyOrder(done, cs);
    }
    PickedAmounts(nodes, selected, done);
    r := Some(Changes(total.value, total.fees, total.jettons));
  }

  /** The amount over the selected positions whose transaction has a node with changes. */
  function SelectedAmount(nodes: map<Hash, Option<Changes>>, selected: seq<Hash>, i: Item): (r: int)
  {
    if selected == [] then 0
    else
      var h := selected[0];
      (if h in nodes && nodes[h].Some? then Amount(nodes[h].value, i) else 0) + SelectedAmount(nodes, selected[1..], i)
  }

  lemma {:induction false} SelectedConcat(nodes: map<Hash, Option<Changes>>, selected: seq<Hash>, h: Hash, i: Item)
    ensures SelectedAmount(nodes, selected + [h], i) == SelectedAmount(nodes, selected, i)
      + if h in nodes && nodes[h].Some? then Amount(nodes[h].value, i) else 0
  {
    if selected == [] {
      assert selected + [h] == [h];
    } else {
      assert (selected + [h])[1..] == selected[1..] + [h];
      SelectedConcat(nodes, selected[1..], h, i);
    }
  }

  lemma {:induction false} TotalConcat(cs: seq<Changes>, c: Changes, i: Item)
    ensures AmountTotal(cs + [c], i) == AmountTotal(cs, i) + Amount(c, i)
  {
    if cs == [] {
      assert cs + [c] == [c];
    } else {
      assert (cs + [c])[1..] == cs[1..] + [c];
      TotalConcat(cs[1..], c, i);
    }
  }

  lemma {:induction false} PickedTotal(nodes: map<Hash, Option<Changes>>, selected: seq<Hash>, i: Item)
    ensures AmountTotal(Picked(Reached(nodes), selected, Reached(nodes).Keys), i) == SelectedAmount(nodes, selected, i)
  {
    if selected != [] {
      var n := |selected| - 1;
      var h, reached := selected[n], Reached(nodes);
      PickedTotal(nodes, selected[..n], i);
      assert selected == selected[..n] + [h];
      SelectedConcat(nodes, selected[..n], h, i);
      if h in reached { TotalConcat(Picked(reached, selected[..n], reached.Keys), reached[h], i); }
    }
  }

  lemma {:induction false} PickedAmounts(nodes: map<Hash, Option<Changes>>, selected: seq<Hash>, done: seq<Changes>)
    requires multiset(done) == multiset(Picked(Reached(nodes), selected, Reached(nodes).Keys))
    ensures forall i: Item :: Amount(MergeAll(done), i) == SelectedAmount(nodes, selected, i)
  {
    var picked := Picked(Reached(nodes), selected, Reached(nodes).Keys);
    MergeAnyOrder(done, picked);
    forall i: Item ensures Amount(MergeAll(done), i) == SelectedAmount(nodes, selected, i) {
      MergeTotals(picked, i);
      PickedTotal(nodes, selected, i);
    }
  }

  lemma {:induction false} NothingPicked(nodes: map<Hash, Changes>, selected: seq<Hash>)
    ensures Picked(nodes, selected, {}) == []
  {
    if selected != [] { NothingPicked(nodes, selected[..|selected| - 1]); }
  }
}
