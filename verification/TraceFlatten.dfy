/** Flattening of a map of trace nodes by a queue, the copy into the pending context, and the round trip through
    reassembly. */
module TraceFlatten {
  import opened Basics
  import opened Forest
  import opened Cycles
  import opened QueueLoops
  import TA = TraceAssembly

  datatype NodeData = NodeData(tx: Hash, inMsg: Hash, outMsgs: seq<Hash>,
                               lt: nat, now: nat, mcSeqno: nat, emulated: bool)

  datatype ActionsField = Absent | Undecodable | Decoded(ids: seq<Hash>)

  /** The stored trace: `nodes` holds None where the bytes do not decode. */
  datatype StoredTrace = StoredTrace(rootNode: Option<Hash>, nodes: map<Hash, Option<NodeData>>, actions: ActionsField)

  datatype Visited = Visited(key: Hash, data: NodeData, traceId: Option<Hash>)

  /** The largest logical time, unix time and masterchain seqno of the trace. */
  datatype Ends = Ends(lt: nat, utime: nat, mcSeqno: nat)

  /** What every action of the trace is stamped with. */
  datatype Stamp = Stamp(ends: Ends, externalHash: Hash, traceId: Option<Hash>)

  datatype Trace = Trace(traceId: Option<Hash>, externalHash: Hash, nodes: seq<Visited>, classified: bool,
                         actions: seq<(Hash, Stamp)>)

  datatype Converted = Ok(trace: Trace) | RootNotFound | KeyNotFound(key: Hash) | BadNode(key: Hash) | BadActions

  /** The out-messages that are keys of the map, in order. */
  function Present(nodes: map<Hash, Option<NodeData>>, msgs: seq<Hash>): (r: seq<Hash>)
    ensures forall m :: m in r <==> m in msgs && m in nodes
  {
    if msgs == [] then []
    else (if msgs[0] in nodes then [msgs[0]] else []) + Present(nodes, msgs[1..])
  }

  function NextKeys(h: StoredTrace, key: Hash): (r: seq<Hash>)
    requires key in h.nodes
  {
    if h.nodes[key].None? then [] else Present(h.nodes, h.nodes[key].value.outMsgs)
  }

  ghost function KidsOver(h: StoredTrace, keys: set<Hash>): (r: map<Hash, seq<Hash>>)
    requires keys <= h.nodes.Keys
  {
    map k | k in keys :: NextKeys(h, k)
  }

  /** The child lists are the map's own. */
  ghost predicate Follows(s: Shape<Hash>, h: StoredTrace)
  {
    s.kids.Keys <= h.nodes.Keys && s.kids == KidsOver(h, s.kids.Keys)
  }

  /** The shape covers the root and everything reachable from it, with the map's own child lists. */
  ghost predicate Describes(s: Shape<Hash>, h: StoredTrace, root: Hash)
  {
    root in s.kids && Follows(s, h)
  }

  lemma {:induction false} PresentConcat(nodes: map<Hash, Option<NodeData>>, u: seq<Hash>, m: Hash)
    ensures Present(nodes, u + [m]) == Present(nodes, u) + if m in nodes then [m] else []
  {
    if u == [] {
      assert u + [m] == [m];
      assert [m][1..] == [];
    } else {
      assert (u + [m])[1..] == u[1..] + [m];
      PresentConcat(nodes, u[1..], m);
    }
  }

  /** A part of a list: what it has at the ascending positions `at`. */
  ghost predicate PartAt<T>(all: seq<T>, at: seq<nat>, part: seq<T>)
  {
    && |at| == |part|
    && (forall k :: 0 <= k < |at| ==> at[k] < |all| && part[k] == all[at[k]])
    && (forall j, k :: 0 <= j < k < |at| ==> at[j] < at[k])
  }

  /** One more element, taken or left out. */
  lemma {:induction false} PartOneMore<T>(all: seq<T>, at: seq<nat>, part: seq<T>, x: T)
    requires PartAt(all, at, part)
    ensures PartAt(all + [x], at, part) && PartAt(all + [x], at + [|all|], part + [x])
    ensures |all| !in at && forall i :: i in at + [|all|] <==> i in at || i == |all|
  {
  }

  /** All the out-messages that are keys, in the order and as often as they are listed. */
  ghost predicate InMessageOrder(h: StoredTrace, key: Hash, kids: seq<Hash>)
    requires key in h.nodes && h.nodes[key].Some?
  {
    exists at: seq<nat> :: PartAt(h.nodes[key].value.outMsgs, at, kids)
      && forall i :: 0 <= i < |h.nodes[key].value.outMsgs| ==> (i in at <==> h.nodes[key].value.outMsgs[i] in h.nodes)
  }

  lemma {:induction false} PresentAt(nodes: map<Hash, Option<NodeData>>, msgs: seq<Hash>) returns (at: seq<nat>)
    ensures PartAt(msgs, at, Present(nodes, msgs))
    ensures forall i :: 0 <= i < |msgs| ==> (i in at <==> msgs[i] in nodes)
    decreases |msgs|
  {
    if msgs == [] {
      at := [];
    } else {
      var n := |msgs| - 1;
      var before := PresentAt(nodes, msgs[..n]);
      assert msgs == msgs[..n] + [msgs[n]];
      PresentConcat(nodes, msgs[..n], msgs[n]);
      PartOneMore(msgs[..n], before, Present(nodes, msgs[..n]), msgs[n]);
      at := if msgs[n] in nodes then before + [n] else before;
      forall i | 0 <= i < |msgs| ensures i in at <==> msgs[i] in nodes {
        if i < n { assert msgs[..n][i] == msgs[i]; }
      }
    }
  }

  lemma {:induction false} NextKeysInOrder(h: StoredTrace, key: Hash)
    requires key in h.nodes && h.nodes[key].Some?
    ensures InMessageOrder(h, key, NextKeys(h, key))
  {
    var at := PresentAt(h.nodes, h.nodes[key].value.outMsgs);
  }

  ghost predicate AllDecode(h: StoredTrace, order: seq<Hash>)
  {
    forall i :: 0 <= i < |order| ==> order[i] in h.nodes && h.nodes[order[i]].Some?
  }

  ghost function IdOf(h: StoredTrace, root: Hash): (r: Option<Hash>)
    requires root in h.nodes && h.nodes[root].Some?
  {
    if h.nodes[root].value.emulated then None else Some(h.nodes[root].value.tx)
  }

  function Larger(a: nat, b: nat): (r: nat)
  {
    if a < b then b else a
  }

  function Extend(e: Ends, n: NodeData): (r: Ends)
  {
    Ends(Larger(e.lt, n.lt), Larger(e.utime, n.now), Larger(e.mcSeqno, n.mcSeqno))
  }

  function EndsOf(nodes: seq<Visited>): (r: Ends)
  {
    if nodes == [] then Ends(0, 0, 0) else Extend(EndsOf(nodes[..|nodes| - 1]), nodes[|nodes| - 1].data)
  }

  /** Each of the ends bounds what the nodes carry, and some node carries it. */
  ghost predicate Tops(nodes: seq<Visited>, e: Ends)
  {
    && (forall i :: 0 <= i < |nodes| ==>
          nodes[i].data.lt <= e.lt && nodes[i].data.now <= e.utime && nodes[i].data.mcSeqno <= e.mcSeqno)
    && (exists i :: 0 <= i < |nodes| && nodes[i].data.lt == e.lt)
    && (exists i :: 0 <= i < |nodes| && nodes[i].data.now == e.utime)
    && (exists i :: 0 <= i < |nodes| && nodes[i].data.mcSeqno == e.mcSeqno)
  }

  /** The running maxima are the greatest values that the nodes carry. */
  lemma {:induction false} EndsAreMaxima(nodes: seq<Visited>)
    requires nodes != []
    ensures Tops(nodes, EndsOf(nodes))
  {
    var n := |nodes| - 1;
    assert nodes[n].data == nodes[n].data;
    if n > 0 {
      EndsAreMaxima(nodes[..n]);
      assert forall i :: 0 <= i < n ==> nodes[..n][i] == nodes[i];
    }
  }

  /** The list holds the nodes in the given order, each marked with the trace id. */
  ghost predicate Lists(h: StoredTrace, root: Hash, order: seq<Hash>, nodes: seq<Visited>)
    requires root in h.nodes && h.nodes[root].Some?
  {
    && |nodes| == |order| && AllDecode(h, order)
    && forall i :: 0 <= i < |order| ==> nodes[i] == Visited(order[i], h.nodes[order[i]].value, IdOf(h, root))
  }

  /** The child lists of the whole map. */
  ghost function Children(h: StoredTrace): (r: map<Hash, seq<Hash>>)
    ensures Inside(r)
  {
    KidsOver(h, h.nodes.Keys)
  }

  /** The keys at which the loop returns. */
  ghost function Undecodable(h: StoredTrace): (r: set<Hash>)
  {
    set k | k in h.nodes && h.nodes[k].None?
  }

  lemma {:induction false} EndsExtend(nodes: seq<Visited>, v: Visited)
    ensures EndsOf(nodes + [v]) == Extend(EndsOf(nodes), v.data)
  {
    assert (nodes + [v])[..|nodes|] == nodes;
  }

  /** What the loop has listed is what it has taken. */
  ghost predicate ListedSoFar(h: StoredTrace, root: Hash, done: seq<Hash>, txs: seq<Visited>, traceId: Option<Hash>)
    requires root in h.nodes
  {
    if done == [] then txs == [] && traceId == None
    else h.nodes[root].Some? && traceId == IdOf(h, root) && Lists(h, root, done, txs)
  }

  lemma {:induction false} ListedOneMore(h: StoredTrace, root: Hash, done: seq<Hash>, txs: seq<Visited>,
                                         before: Option<Hash>,
                                         key: Hash, traceId: Option<Hash>)
    requires root in h.nodes && ListedSoFar(h, root, done, txs, before) && key in h.nodes && h.nodes[key].Some?
    requires done == [] ==> key == root
    requires traceId == if key == root && !h.nodes[key].value.emulated then Some(h.nodes[key].value.tx) else before
    ensures ListedSoFar(h, root, done + [key], txs + [Visited(key, h.nodes[key].value, traceId)], traceId)
  {
  }

  /** The loop in progress, with what it has listed. */
  ghost predicate Flattening(h: StoredTrace, root: Hash, n: nat, queue: seq<Hash>, left: nat, done: seq<Hash>,
                             txs: seq<Visited>, traceId: Option<Hash>)
  {
    && root in h.nodes && OnTrack(Children(h), Undecodable(h), root, n, queue, left, done)
    && (done == [] ==> queue == [root])
    && ListedSoFar(h, root, done, txs, traceId)
  }

  function NextId(h: StoredTrace, root: Hash, key: Hash, traceId: Option<Hash>): (r: Option<Hash>)
    requires key in h.nodes && h.nodes[key].Some?
  {
    if key == root && !h.nodes[key].value.emulated then Some(h.nodes[key].value.tx) else traceId
  }

  lemma {:induction false} FlattenStart(h: StoredTrace, root: Hash) returns (n: nat)
    requires root in h.nodes && Stops(Children(h), Undecodable(h), root)
    ensures Flattening(h, root, n, [root], n, [], [], None)
  {
    n := StartTrack(Children(h), Undecodable(h), root);
  }

  lemma {:induction false} FlattenFails(h: StoredTrace, root: Hash, n: nat, queue: seq<Hash>, left: nat,
                                        done: seq<Hash>,
                                        txs: seq<Visited>, traceId: Option<Hash>)
    requires Flattening(h, root, n, queue, left, done, txs, traceId) && queue != []
    ensures left > 0 && queue[0] in h.nodes
    ensures h.nodes[queue[0]].None? ==>
      Fails(Children(h), Undecodable(h), root) && Culprit(Children(h), Undecodable(h), root) == queue[0]
  {
    TrackTurn(Children(h), Undecodable(h), root, n, queue, left, done);
  }

  lemma {:induction false} FlattenTurn(h: StoredTrace, root: Hash, n: nat, queue: seq<Hash>, left: nat, done: seq<Hash>,
                                       txs: seq<Visited>, traceId: Option<Hash>)
    requires Flattening(h, root, n, queue, left, done, txs, traceId) && queue != []
    requires left > 0 && queue[0] in h.nodes && h.nodes[queue[0]].Some?
    ensures var key := queue[0]; var id := NextId(h, root, key, traceId);
      Flattening(h, root, n, queue[1..] + NextKeys(h, key), left - 1, done + [key],
                 txs + [Visited(key, h.nodes[key].value, id)], id)
  {
    var key := queue[0];
    TrackTurn(Children(h), Undecodable(h), root, n, queue, left, done);
    ListedOneMore(h, root, done, txs, traceId, key, NextId(h, root, key, traceId));
  }

  lemma {:induction false} FlattenEnd(h: StoredTrace, root: Hash, n: nat, left: nat, done: seq<Hash>,
                                      txs: seq<Visited>, traceId: Option<Hash>)
    requires Flattening(h, root, n, [], left, done, txs, traceId)
    ensures RunsDry(Children(h), Undecodable(h), root) && h.nodes[root].Some? && traceId == IdOf(h, root)
    ensures Lists(h, root, Order(Children(h), Undecodable(h), root), txs)
  {
    TrackEnd(Children(h), Undecodable(h), root, n, left, done);
    OrderStarts(Children(h), Undecodable(h), root);
  }

  /** One turn of the loop, at a node that decodes. */
  method TakeNode(h: StoredTrace, root: Hash, queue: seq<Hash>, txs: seq<Visited>, traceId: Option<Hash>, ends: Ends,
                  ghost n: nat, ghost left: nat, ghost done: seq<Hash>)
    returns (next: seq<Hash>, more: seq<Visited>, id: Option<Hash>, last: Ends)
    requires Flattening(h, root, n, queue, left, done, txs, traceId) && queue != [] && left > 0
    requires queue[0] in h.nodes && h.nodes[queue[0]].Some? && ends == EndsOf(txs)
    ensures Flattening(h, root, n, next, left - 1, done + [queue[0]], more, id) && last == EndsOf(more)
  {
    var key := queue[0];
    var node := h.nodes[key].value;
    id := if key == root && !node.emulated then Some(node.tx) else traceId;
    FlattenTurn(h, root, n, queue, left, done, txs, traceId);
    EndsExtend(txs, Visited(key, node, id));
    more := txs + [Visited(key, node, id)];
    next := AppendPresent(queue[1..], h.nodes, node.outMsgs);
    last := Extend(ends, node);
  }

  /** The queue loop over the node map. It keeps no visited set, so it is called where it comes to an end: where no
      cycle can be reached from the root, or a node that does not decode. A node with several parents is visited once
      for each path. */
  method Traverse(h: StoredTrace, root: Hash)
    returns (bad: Option<Hash>, txs: seq<Visited>, traceId: Option<Hash>, ends: Ends)
    requires root in h.nodes && Stops(Children(h), Undecodable(h), root)
    ensures bad.Some? ==>
      Fails(Children(h), Undecodable(h), root) && bad.value == Culprit(Children(h), Undecodable(h), root)
    ensures bad.None? ==> RunsDry(Children(h), Undecodable(h), root) && h.nodes[root].Some?
    ensures bad.None? ==> Lists(h, root, Order(Children(h), Undecodable(h), root), txs)
    ensures bad.None? ==> traceId == IdOf(h, root) && ends == EndsOf(txs)
  {
    ghost var n := FlattenStart(h, root);
    ghost var left, done: seq<Hash> := n, [];
    var queue := [root];
    bad, txs, traceId, ends := None, [], None, Ends(0, 0, 0);
    while |queue| > 0
      invariant Flattening(h, root, n, queue, left, done, txs, traceId) && ends == EndsOf(txs)
      decreases left
    {
      var key := queue[0];
      FlattenFails(h, root, n, queue, left, done, txs, traceId);
      if h.nodes[key].None? {
        bad := Some(key);
        return;
      }
      queue, txs, traceId, ends := TakeNode(h, root, queue, txs, traceId, ends, n, left, done);
      done, left := done + [key], left - 1;
    }
    FlattenEnd(h, root, n, left, done, txs, traceId);
  }

  /** The whole conversion, with every way it can fail. */
  method ConvertHSet(h: StoredTrace) returns (r: Converted)
    requires h.rootNode.Some? && h.rootNode.value in h.nodes ==> Stops(Children(h), Undecodable(h), h.rootNode.value)
    ensures r.RootNotFound? <==> h.rootNode.None?
    ensures r.KeyNotFound? <==> h.rootNode.Some? && h.rootNode.value !in h.nodes
    ensures r.KeyNotFound? ==> h.rootNode == Some(r.key)
    ensures h.rootNode.Some? && h.rootNode.value in h.nodes ==>
      var kids, stop, root := Children(h), Undecodable(h), h.rootNode.value;
      && (r.BadNode? <==> Fails(kids, stop, root))
      && (r.BadNode? ==> r.key == Culprit(kids, stop, root))
      && (r.BadActions? <==> RunsDry(kids, stop, root) && h.actions.Undecodable?)
    ensures r.Ok? ==> IsTrace(h, r.trace) && HasActions(h.actions, r.trace)
  {
    if h.rootNode.None? { return RootNotFound; }
    var root := h.rootNode.value;
    if root !in h.nodes { return KeyNotFound(root); }
    FailsExactly(Children(h), Undecodable(h), root);
    DryExactly(Children(h), Undecodable(h), root);
    var bad, txs, traceId, ends := Traverse(h, root);
    if bad.Some? { return BadNode(bad.value); }
    OrderStarts(Children(h), Undecodable(h), root);
    EndsAreMaxima(txs);
    if h.actions.Undecodable? { return BadActions; }
    var actions: seq<(Hash, Stamp)> := [];
    if h.actions.Decoded? { actions := StampAll(h.actions.ids, Stamp(ends, root, traceId)); }
    r := Ok(Trace(traceId, root, txs, h.actions.Decoded?, actions));
  }

  /** The nodes in the order in which the loop takes them, and on each of them the id of the trace: the transaction of
      the root, or none if the root is emulated. */
  ghost predicate IsTrace(h: StoredTrace, t: Trace)
  {
    var root := t.externalHash;
    && h.rootNode == Some(root) && root in h.nodes && h.nodes[root].Some?
    && t.traceId == (if h.nodes[root].value.emulated then None else Some(h.nodes[root].value.tx))
    && RunsDry(Children(h), Undecodable(h), root)
    && var order := Order(Children(h), Undecodable(h), root);
      && |t.nodes| == |order|
      && forall i :: 0 <= i < |order| ==>
           && order[i] in h.nodes && h.nodes[order[i]] == Some(t.nodes[i].data)
           && t.nodes[i].key == order[i] && t.nodes[i].traceId == t.traceId
  }

  /** If there are actions, all of them in order, each stamped with the ends, the root and the id of the trace. */
  ghost predicate HasActions(a: ActionsField, t: Trace)
  {
    && t.classified == a.Decoded?
    && (a.Absent? ==> t.actions == [])
    && (a.Decoded? ==> |t.actions| == |a.ids|)
    && (a.Decoded? ==> forall i :: 0 <= i < |a.ids| ==>
          var (id, stamp) := t.actions[i];
          && id == a.ids[i] && stamp.externalHash == t.externalHash && stamp.traceId == t.traceId
          && Tops(t.nodes, stamp.ends))
  }

  method StampAll(ids: seq<Hash>, stamp: Stamp) returns (r: seq<(Hash, Stamp)>)
    ensures |r| == |ids| && forall i :: 0 <= i < |ids| ==> r[i] == (ids[i], stamp)
  {
    r := [];
    for i := 0 to |ids|
      invariant |r| == i && forall k :: 0 <= k < i ==> r[k] == (ids[k], stamp)
    {
      r := r + [(ids[i], stamp)];
    }
  }

  /** The inner loop over the out-messages. */
  method AppendPresent(queue: seq<Hash>, nodes: map<Hash, Option<NodeData>>, msgs: seq<Hash>) returns (r: seq<Hash>)
    ensures r == queue + Present(nodes, msgs)
  {
    r := queue;
    for i := 0 to |msgs|
      invariant r == queue + Present(nodes, msgs[..i])
    {
      assert msgs[..i + 1] == msgs[..i] + [msgs[i]];
      PresentConcat(nodes, msgs[..i], msgs[i]);
      if msgs[i] in nodes { r := r + [msgs[i]]; }
    }
    assert msgs[..|msgs|] == msgs;
  }

  // ----- when the loop ends -----

  lemma {:induction false} FollowsIsPart(s: Shape<Hash>, h: StoredTrace)
    ensures Follows(s, h) <==> PartOf(s, Children(h))
  {
    if PartOf(s, Children(h)) { assert s.kids == KidsOver(h, s.kids.Keys); }
  }

  /** The loop fails if and only if a node that does not decode can be reached, runs dry if and only if neither such a
      node nor a cycle can be reached, and otherwise goes on forever. */
  lemma {:induction false} LoopEndsExactly(h: StoredTrace, root: Hash)
    requires root in h.nodes
    ensures Fails(Children(h), Undecodable(h), root) <==>
      exists k :: Reaches(Children(h), root, k) && k in h.nodes && h.nodes[k].None?
    ensures RunsDry(Children(h), Undecodable(h), root) <==>
      NoCycleFrom(Children(h), root) && forall k :: Reaches(Children(h), root, k) ==> k in h.nodes && h.nodes[k].Some?
  {
    var kids: map<Hash, seq<Hash>>, stop: set<Hash> := Children(h), Undecodable(h);
    FailsExactly(kids, stop, root);
    DryExactly(kids, stop, root);
    if k :| Reaches(kids, root, k) && k in h.nodes && h.nodes[k].None? { assert k in stop; }
    forall k | Reaches(kids, root, k) ensures k in h.nodes {
      var p :| IsWalk(kids, p, root, k);
      WalkInside(kids, p, root, k, |p| - 1);
    }
    if !BadAhead(kids, stop, root) {
      forall k | Reaches(kids, root, k) ensures h.nodes[k].Some? {
        assert k !in stop;
      }
    }
  }

  /** A node whose only message leads to itself keeps the loop busy forever. */
  lemma {:induction false} OwnMessageNeverStops(h: StoredTrace, key: Hash, n: nat)
    requires key in h.nodes && h.nodes[key].Some? && h.nodes[key].value.outMsgs == [key]
    ensures Loop(Children(h), Undecodable(h), [key], n) == Going([key])
    decreases n
  {
    assert [key][1..] == [] && Present(h.nodes, [key]) == [key];
    assert Next(Children(h), [key]) == [key];
    if n > 0 { OwnMessageNeverStops(h, key, n - 1); }
  }

  lemma {:induction false} AllPresent(nodes: map<Hash, Option<NodeData>>, msgs: seq<Hash>)
    requires forall m :: m in msgs ==> m in nodes
    ensures Present(nodes, msgs) == msgs
  {
    if msgs != [] {
      AllPresent(nodes, msgs[1..]);
      assert msgs == [msgs[0]] + msgs[1..];
    }
  }

  lemma {:induction false} OwnChildIsCycle(kids: map<Hash, seq<Hash>>, root: Hash, own: Hash, i: nat)
    requires root in kids && i < |kids[root]| && kids[root][i] == own && own in kids && own in kids[own]
    ensures !NoCycleFrom(kids, root)
  {
    assert IsWalk(kids, [root, own], root, own) && IsWalk(kids, [own, own], own, own);
    assert Reaches(kids, root, own) && OnCycle(kids, own);
  }

  /** A node that does not decode ends the loop although a cycle can be reached beside it. */
  lemma {:induction false} BadNodeEndsLoop(h: StoredTrace, root: Hash, bad: Hash, own: Hash)
    requires root in h.nodes && h.nodes[root].Some? && h.nodes[root].value.outMsgs == [bad, own]
    requires bad in h.nodes && h.nodes[bad].None?
    requires own in h.nodes && h.nodes[own].Some? && h.nodes[own].value.outMsgs == [own]
    ensures !NoCycleFrom(Children(h), root) && Loop(Children(h), Undecodable(h), [root], 2) == Failed(bad)
  {
    var kids: map<Hash, seq<Hash>> := Children(h);
    AllPresent(h.nodes, [own]);
    AllPresent(h.nodes, [bad, own]);
    OwnChildIsCycle(kids, root, own, 1);
    FailsAtFirstChild(kids, Undecodable(h), root);
  }

  // ----- the pending context keeps the order -----

  /** The transactions saved for a trace: all nodes, or only the emulated ones. */
  function Saved(nodes: seq<Visited>, emulatedOnly: bool): (r: seq<Visited>)
  {
    if nodes == [] then []
    else (if emulatedOnly && !nodes[0].data.emulated then [] else [nodes[0]]) + Saved(nodes[1..], emulatedOnly)
  }

  lemma {:induction false} SavedConcat(nodes: seq<Visited>, v: Visited, emulatedOnly: bool)
    ensures Saved(nodes + [v], emulatedOnly)
         == Saved(nodes, emulatedOnly) + if emulatedOnly && !v.data.emulated then [] else [v]
  {
    if nodes == [] {
      assert nodes + [v] == [v];
      assert [v][1..] == [];
    } else {
      assert (nodes + [v])[1..] == nodes[1..] + [v];
      SavedConcat(nodes[1..], v, emulatedOnly);
    }
  }

  const UINT16 := 0x1_0000

  lemma {:induction false} CountWraps(i: nat)
    ensures (i % UINT16 + 1) % UINT16 == (i + 1) % UINT16
  {
  }

  /** The loop over the nodes of one trace: what is saved, the running maxima, and the 16-bit node count. */
  method FillFromRawData(nodes: seq<Visited>, emulatedOnly: bool) returns (saved: seq<Visited>, ends: Ends, count: nat)
    ensures saved == Saved(nodes, emulatedOnly) && KeepsEmulated(nodes, emulatedOnly, saved)
    ensures if nodes == [] then ends == Ends(0, 0, 0) else Tops(nodes, ends)
    ensures count == |nodes| % 0x1_0000
  {
    saved, ends, count := [], Ends(0, 0, 0), 0;
    for i := 0 to |nodes|
      invariant saved == Saved(nodes[..i], emulatedOnly)
      invariant ends == EndsOf(nodes[..i])
      invariant count == i % UINT16
    {
      assert nodes[..i + 1] == nodes[..i] + [nodes[i]];
      SavedConcat(nodes[..i], nodes[i], emulatedOnly);
      EndsExtend(nodes[..i], nodes[i]);
      CountWraps(i);
      ends := Extend(ends, nodes[i].data);
      if !emulatedOnly || nodes[i].data.emulated { saved := saved + [nodes[i]]; }
      count := (count + 1) % UINT16;
    }
    assert nodes[..|nodes|] == nodes;
    ghost var at := SavedAt(nodes, emulatedOnly);
    if nodes != [] { EndsAreMaxima(nodes); }
  }

  /** The nodes kept, in their order: all of them, or the emulated ones. */
  ghost predicate KeepsEmulated(nodes: seq<Visited>, emulatedOnly: bool, saved: seq<Visited>)
  {
    exists at: seq<nat> :: PartAt(nodes, at, saved) && KeptAt(nodes, emulatedOnly, at)
  }

  ghost predicate KeptAt(nodes: seq<Visited>, emulatedOnly: bool, at: seq<nat>)
  {
    forall i :: 0 <= i < |nodes| ==> (i in at <==> !emulatedOnly || nodes[i].data.emulated)
  }

  lemma {:induction false} KeptOneMore(nodes: seq<Visited>, v: Visited, emulatedOnly: bool, before: seq<nat>,
                                       saved: seq<Visited>) returns (at: seq<nat>)
    requires PartAt(nodes, before, saved) && KeptAt(nodes, emulatedOnly, before)
    ensures PartAt(nodes + [v], at, saved + if emulatedOnly && !v.data.emulated then [] else [v])
    ensures KeptAt(nodes + [v], emulatedOnly, at)
  {
    PartOneMore(nodes, before, saved, v);
    assert saved + [] == saved;
    at := if emulatedOnly && !v.data.emulated then before else before + [|nodes|];
  }

  lemma {:induction false} SavedAt(nodes: seq<Visited>, emulatedOnly: bool) returns (at: seq<nat>)
    ensures PartAt(nodes, at, Saved(nodes, emulatedOnly)) && KeptAt(nodes, emulatedOnly, at)
    decreases |nodes|
  {
    if nodes == [] {
      at := [];
    } else {
      var init, last := nodes[..|nodes| - 1], nodes[|nodes| - 1];
      var before := SavedAt(init, emulatedOnly);
      SavedConcat(init, last, emulatedOnly);
      at := KeptOneMore(init, last, emulatedOnly, before, Saved(init, emulatedOnly));
      assert init + [last] == nodes;
    }
  }

  // ----- reassembly of a listing -----

  /** The map encodes the tree `s`: every key but the root is the in-message of its own node, and no node
      emits the root's in-message. */
  ghost predicate Encodes(h: StoredTrace, s: Shape<Hash>, root: Hash)
  {
    && IsTree(s, root) && Describes(s, h, root)
    && (forall k :: k in s.kids ==> h.nodes[k].Some?)
    && (forall k :: k in s.kids && k != root ==> h.nodes[k].value.inMsg == k)
    && (forall k :: k in s.kids ==> h.nodes[root].value.inMsg !in h.nodes[k].value.outMsgs)
  }

  ghost predicate ListsNodes(s: Shape<Hash>, keys: seq<Hash>)
  {
    ParentsFirst(s, keys) && forall i :: 0 <= i < |keys| ==> keys[i] in s.kids
  }

  ghost predicate ParentListed(s: Shape<Hash>, keys: seq<Hash>, i: nat)
    requires i < |keys|
  {
    keys[i] in s.par && s.par[keys[i]] in keys
  }

  /** Every node's children, by name, are the listed children in list order. */
  ghost predicate ChildrenAsListed(s: Shape<Hash>, keys: seq<Hash>, kids: seq<seq<nat>>)
  {
    |kids| == |keys| && forall p :: 0 <= p < |keys| ==>
      AllBelow(kids[p], |keys|) && Names(keys, kids[p]) == KidsIn(s, keys[p], keys)
  }

  ghost function TxsOf(h: StoredTrace, keys: seq<Hash>): (r: seq<TA.Tx>)
    requires AllDecode(h, keys)
    ensures |r| == |keys|
    ensures forall i :: 0 <= i < |keys| ==>
      r[i] == TA.Tx(Some(h.nodes[keys[i]].value.inMsg), h.nodes[keys[i]].value.outMsgs)
  {
    seq(|keys|, i requires 0 <= i < |keys| =>
      TA.Tx(Some(h.nodes[keys[i]].value.inMsg), h.nodes[keys[i]].value.outMsgs))
  }

  /** A key of the tree is emitted by its parent and by nobody else. */
  lemma {:induction false} EmittedByParent(h: StoredTrace, s: Shape<Hash>, root: Hash, k: Hash, p: Hash)
    requires Encodes(h, s, root) && k in s.kids && p in s.kids
    ensures k in h.nodes[p].value.outMsgs <==> k in s.par && s.par[k] == p
  {
    assert s.kids[p] == NextKeys(h, p);
    assert k in h.nodes[p].value.outMsgs <==> k in s.kids[p];
    assert SitsRight(s, p, k);
    assert k in s.kids[p] <==> k in multiset(s.kids[p]);
  }

  lemma {:induction false} NobodyConsumesOwn(h: StoredTrace, s: Shape<Hash>, root: Hash, keys: seq<Hash>)
    requires Encodes(h, s, root) && ListsNodes(s, keys)
    ensures TA.NoSelfConsumption(TxsOf(h, keys))
  {
    var txs := TxsOf(h, keys);
    forall i | 0 <= i < |keys| ensures TA.InHash(txs[i]) !in txs[i].outMsgs {
      if keys[i] != root {
        EmittedByParent(h, s, root, keys[i], keys[i]);
        ParentRank(s, keys[i]);
      }
    }
  }

  /** The assembly finds the parent of a listed node exactly when that parent is listed. */
  lemma {:induction false} ListingParents(h: StoredTrace, s: Shape<Hash>, root: Hash, keys: seq<Hash>, i: nat, j: nat)
    requires Encodes(h, s, root) && ListsNodes(s, keys) && i < |keys| && j < |keys|
    ensures TA.Parents(TxsOf(h, keys))[i] == Some(j) <==> keys[i] in s.par && s.par[keys[i]] == keys[j]
  {
    var txs := TxsOf(h, keys);
    NobodyConsumesOwn(h, s, root, keys);
    TA.ParentsDescribed(txs, i);
    EmittedByParent(h, s, root, keys[i], keys[j]);
    if keys[i] in s.par && s.par[keys[i]] == keys[j] {
      OpenFromParent(h, s, root, keys, i, j);
      assert TA.ParentOf(txs, i, j);
    }
  }

  lemma {:induction false} OpenFromParent(h: StoredTrace, s: Shape<Hash>, root: Hash, keys: seq<Hash>, i: nat, j: nat)
    requires Encodes(h, s, root) && ListsNodes(s, keys) && i < |keys| && j < |keys|
    requires keys[i] in s.par && s.par[keys[i]] == keys[j]
    ensures TA.OpenFrom(TxsOf(h, keys), i, keys[i], j)
  {
    var txs := TxsOf(h, keys);
    EmittedByParent(h, s, root, keys[i], keys[j]);
    forall x | j < x < i ensures keys[i] !in txs[x].outMsgs {
      EmittedByParent(h, s, root, keys[i], keys[x]);
    }
    forall x | j <= x < i ensures TA.InHash(txs[x]) != keys[i] {
      ConsumedOnce(h, s, root, keys, i, x);
    }
  }

  /** An earlier node consumes another message. */
  lemma {:induction false} ConsumedOnce(h: StoredTrace, s: Shape<Hash>, root: Hash, keys: seq<Hash>, i: nat, x: nat)
    requires Encodes(h, s, root) && ListsNodes(s, keys) && x < i < |keys| && keys[i] in s.par
    ensures h.nodes[keys[x]].value.inMsg != keys[i]
  {
    if keys[x] == root {
      ParentRank(s, keys[i]);
      EmittedByParent(h, s, root, keys[i], s.par[keys[i]]);
    }
  }

  lemma {:induction false} ListingChildren(h: StoredTrace, s: Shape<Hash>, root: Hash, keys: seq<Hash>, p: nat)
    requires Encodes(h, s, root) && ListsNodes(s, keys) && p < |keys|
    ensures var at := ChildrenIn(TA.Parents(TxsOf(h, keys)), p);
      AllBelow(at, |keys|) && Names(keys, at) == KidsIn(s, keys[p], keys)
  {
    var pars := TA.Parents(TxsOf(h, keys));
    forall i | 0 <= i < |keys| ensures pars[i] == Some(p) <==> keys[i] in s.par && s.par[keys[i]] == keys[p] {
      ListingParents(h, s, root, keys, i, p);
    }
    ChildrenNamed(s, keys, pars, p);
  }

  /** For every listing of distinct nodes of the tree, parents before children: each node's assembled children
      are its listed children in list order, and there is no warning exactly when every listed node but the
      first has its parent listed. */
  lemma {:induction false} ListingReassembles(h: StoredTrace, s: Shape<Hash>, root: Hash, keys: seq<Hash>)
    requires Encodes(h, s, root) && ListsNodes(s, keys)
    ensures ChildrenAsListed(s, keys, TA.Assemble(TxsOf(h, keys)).kids)
    ensures !TA.Assemble(TxsOf(h, keys)).warning <==>
      forall i :: 0 < i < |keys| ==> ParentListed(s, keys, i)
    ensures TA.Assemble(TxsOf(h, keys)).root == if keys == [] then None else Some(0)
  {
    var txs := TxsOf(h, keys);
    var kids := TA.Assemble(txs).kids;
    TA.KidsFromParents(txs);
    forall p | 0 <= p < |keys| ensures AllBelow(kids[p], |keys|) && Names(keys, kids[p]) == KidsIn(s, keys[p], keys) {
      ListingChildren(h, s, root, keys, p);
    }
    ListingWarning(h, s, root, keys);
  }

  lemma {:induction false} ListingWarning(h: StoredTrace, s: Shape<Hash>, root: Hash, keys: seq<Hash>)
    requires Encodes(h, s, root) && ListsNodes(s, keys)
    ensures !TA.Assemble(TxsOf(h, keys)).warning <==>
      forall i :: 0 < i < |keys| ==> ParentListed(s, keys, i)
    ensures TA.Assemble(TxsOf(h, keys)).root == if keys == [] then None else Some(0)
  {
    NobodyConsumesOwn(h, s, root, keys);
    AllAttachedIfListed(h, s, root, keys);
    WarningMeans(TxsOf(h, keys), s, keys);
  }

  lemma {:induction false} WarningMeans(txs: seq<TA.Tx>, s: Shape<Hash>, keys: seq<Hash>)
    requires TA.NoSelfConsumption(txs) && |txs| == |keys|
    requires forall i :: 0 <= i < |keys| ==> (TA.Parents(txs)[i].Some? <==> ParentListed(s, keys, i))
    ensures !TA.Assemble(txs).warning <==> forall i :: 0 < i < |keys| ==> ParentListed(s, keys, i)
    ensures TA.Assemble(txs).root == if keys == [] then None else Some(0)
  {
    if txs != [] { TA.OneRoot(txs); }
  }

  lemma {:induction false} AllAttachedIfListed(h: StoredTrace, s: Shape<Hash>, root: Hash, keys: seq<Hash>)
    requires Encodes(h, s, root) && ListsNodes(s, keys)
    ensures forall i :: 0 <= i < |keys| ==> (TA.Parents(TxsOf(h, keys))[i].Some? <==> ParentListed(s, keys, i))
  {
    forall i | 0 <= i < |keys| ensures TA.Parents(TxsOf(h, keys))[i].Some? <==> ParentListed(s, keys, i) {
      AttachedIfListed(h, s, root, keys, i);
    }
  }

  lemma {:induction false} AttachedIfListed(h: StoredTrace, s: Shape<Hash>, root: Hash, keys: seq<Hash>, i: nat)
    requires Encodes(h, s, root) && ListsNodes(s, keys) && i < |keys|
    ensures TA.Parents(TxsOf(h, keys))[i].Some? <==> ParentListed(s, keys, i)
  {
    var p := TA.Parents(TxsOf(h, keys))[i];
    if p.Some? { ListingParents(h, s, root, keys, i, p.value); }
    if ParentListed(s, keys, i) { ListedIsAttached(h, s, root, keys, i); }
  }

  lemma {:induction false} ListedIsAttached(h: StoredTrace, s: Shape<Hash>, root: Hash, keys: seq<Hash>, i: nat)
    requires Encodes(h, s, root) && ListsNodes(s, keys) && i < |keys| && ParentListed(s, keys, i)
    ensures TA.Parents(TxsOf(h, keys))[i].Some?
  {
    var j :| 0 <= j < |keys| && keys[j] == s.par[keys[i]];
    ListingParents(h, s, root, keys, i, j);
  }

  /** A stored tree is flattened in the order of its queue. */
  lemma {:induction false} TreeRunsDry(h: StoredTrace, s: Shape<Hash>, root: Hash)
    requires Encodes(h, s, root)
    ensures RunsDry(Children(h), Undecodable(h), root)
    ensures Order(Children(h), Undecodable(h), root) == QueueOrder(s, [root])
  {
    var kids: map<Hash, seq<Hash>>, stop: set<Hash> := Children(h), Undecodable(h);
    FollowsIsPart(s, h);
    RankedHasNoCycle(s, kids, root);
    DryExactly(kids, stop, root);
    forall k | Reaches(kids, root, k) ensures k !in stop {
      var p :| IsWalk(kids, p, root, k);
      WalkDescends(s, kids, p, root, k);
    }
    OrderByRank(kids, stop, s, root);
  }

  /** Flatten, then reassemble: no warning, the same root, and every child list back in out-message order. */
  lemma {:induction false} RoundTrip(h: StoredTrace, s: Shape<Hash>, root: Hash)
    requires Encodes(h, s, root)
    ensures RunsDry(Children(h), Undecodable(h), root)
    ensures var order := Order(Children(h), Undecodable(h), root);
      && multiset(order) == multiset(s.kids.Keys) && AllDecode(h, order)
      && order != [] && order[0] == root
      && var a := TA.Assemble(TxsOf(h, order));
      && !a.warning && a.root == Some(0)
      && forall p :: 0 <= p < |order| ==>
           AllBelow(a.kids[p], |order|) && InMessageOrder(h, order[p], Names(order, a.kids[p]))
  {
    TreeRunsDry(h, s, root);
    TreeReassembles(h, s, root);
  }

  lemma {:induction false} TreeReassembles(h: StoredTrace, s: Shape<Hash>, root: Hash)
    requires Encodes(h, s, root)
    ensures var order := QueueOrder(s, [root]);
      && multiset(order) == multiset(s.kids.Keys) && AllDecode(h, order)
      && order != [] && order[0] == root
      && var a := TA.Assemble(TxsOf(h, order));
      && !a.warning && a.root == Some(0)
      && forall p :: 0 <= p < |order| ==>
           AllBelow(a.kids[p], |order|) && InMessageOrder(h, order[p], Names(order, a.kids[p]))
  {
    var order := QueueOrder(s, [root]);
    QueueOrderOfTree(s, root);
    OrderListsTree(s, root);
    ListingReassembles(h, s, root, order);
    var kids := TA.Assemble(TxsOf(h, order)).kids;
    forall p | 0 <= p < |order|
      ensures AllBelow(kids[p], |order|) && InMessageOrder(h, order[p], Names(order, kids[p]))
    {
      assert Names(order, kids[p]) == KidsIn(s, order[p], order);
      assert s.kids[order[p]] == NextKeys(h, order[p]);
      NextKeysInOrder(h, order[p]);
    }
  }

  lemma {:induction false} OrderListsTree(s: Shape<Hash>, root: Hash)
    requires IsTree(s, root)
    ensures var order := QueueOrder(s, [root]);
      && ListsNodes(s, order) && order != [] && order[0] == root
      && forall i :: 0 < i < |order| ==> ParentListed(s, order, i)
  {
    var order := QueueOrder(s, [root]);
    QueueOrderOfTree(s, root);
    forall i | 0 <= i < |order| ensures order[i] in s.kids {
      assert order[i] in multiset(order);
    }
    forall i | 0 < i < |order| ensures ParentListed(s, order, i) {
      assert order[0] == root && order[i] != root;
      assert s.par[order[i]] in multiset(s.kids.Keys);
    }
  }

  /** With only emulated nodes saved, the rest reassembles as listed; there is no warning exactly when every
      saved node but the first has its parent saved. */
  lemma {:induction false} EmulatedOnlyRoundTrip(h: StoredTrace, s: Shape<Hash>, root: Hash, nodes: seq<Visited>,
                                                 emulatedOnly: bool)
    requires Encodes(h, s, root) && RunsDry(Children(h), Undecodable(h), root)
    requires Lists(h, root, Order(Children(h), Undecodable(h), root), nodes)
    ensures SavedReassembles(h, s, KeysOf(Saved(nodes, emulatedOnly)))
  {
    TreeRunsDry(h, s, root);
    SavedFromTree(h, s, root, nodes, emulatedOnly);
  }

  /** The listing reassembles as listed, without a warning exactly when every node but the first has its parent
      listed. */
  ghost predicate SavedReassembles(h: StoredTrace, s: Shape<Hash>, keys: seq<Hash>)
  {
    && ListsNodes(s, keys) && AllDecode(h, keys)
    && ChildrenAsListed(s, keys, TA.Assemble(TxsOf(h, keys)).kids)
    && (!TA.Assemble(TxsOf(h, keys)).warning <==> forall i :: 0 < i < |keys| ==> ParentListed(s, keys, i))
  }

  lemma {:induction false} SavedFromTree(h: StoredTrace, s: Shape<Hash>, root: Hash, nodes: seq<Visited>,
                                         emulatedOnly: bool)
    requires Encodes(h, s, root) && Lists(h, root, QueueOrder(s, [root]), nodes)
    ensures SavedReassembles(h, s, KeysOf(Saved(nodes, emulatedOnly)))
  {
    OrderListsTree(s, root);
    assert KeysOf(nodes) == QueueOrder(s, [root]);
    SavedListsNodes(s, nodes, emulatedOnly);
    ListingReassembles(h, s, root, KeysOf(Saved(nodes, emulatedOnly)));
  }

  ghost function KeysOf(nodes: seq<Visited>): (r: seq<Hash>)
    ensures |r| == |nodes| && forall i :: 0 <= i < |nodes| ==> r[i] == nodes[i].key
  {
    seq(|nodes|, i requires 0 <= i < |nodes| => nodes[i].key)
  }

  /** Leaving entries out of a listing keeps its order. */
  lemma {:induction false} SavedListsNodes(s: Shape<Hash>, nodes: seq<Visited>, emulatedOnly: bool)
    requires ListsNodes(s, KeysOf(nodes))
    ensures ListsNodes(s, KeysOf(Saved(nodes, emulatedOnly)))
    ensures forall v :: v in Saved(nodes, emulatedOnly) ==> v in nodes
  {
    if nodes != [] {
      var rest := nodes[1..];
      assert forall i :: 0 <= i < |rest| ==> KeysOf(rest)[i] == KeysOf(nodes)[i + 1];
      SavedListsNodes(s, rest, emulatedOnly);
      FirstFits(s, nodes, Saved(rest, emulatedOnly));
    }
  }

  /** The first of a parents-first listing goes before any part of the rest that is one. */
  lemma {:induction false} FirstFits(s: Shape<Hash>, nodes: seq<Visited>, later: seq<Visited>)
    requires nodes != [] && ListsNodes(s, KeysOf(nodes)) && ListsNodes(s, KeysOf(later))
    requires forall v :: v in later ==> v in nodes[1..]
    ensures ListsNodes(s, KeysOf([nodes[0]] + later))
  {
    var keys, all := KeysOf(nodes), KeysOf([nodes[0]] + later);
    assert forall i :: 0 < i < |all| ==> all[i] == KeysOf(later)[i - 1];
    forall i | 0 < i < |all| ensures all[i] != all[0] && (all[0] in s.par ==> s.par[all[0]] != all[i]) {
      assert later[i - 1] in nodes[1..];
      var j :| 0 <= j < |nodes[1..]| && nodes[1..][j] == later[i - 1];
      assert keys[j + 1] == all[i];
    }
  }
}
