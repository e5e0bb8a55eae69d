/** The balance changes of a trace: nodes linked child first, then two traversals that add up what each node changes. */
module BalanceTrace {
  import opened Basics
  import opened Cycles
  import opened QueueLoops
  import opened Balances

  /** What a message body decodes to; a transfer that does not load as a whole still has the fields read so far. */
  datatype Body = NoBody | Undecodable | Transfer(amount: int, to: Address, whole: bool)

  datatype Message = Message(hash: Hash, source: Option<Address>, destination: Option<Address>, opcode: Option<int>,
                             value: Option<int>, fwdFee: Option<int>, body: Body)

  datatype Tx = Tx(hash: Hash, account: Address, totalFees: Option<int>, lt: int, inMsg: Option<Message>,
                   outMsgs: seq<Message>)

  /** A node stands for a transaction, or for an out-message of one that has no destination. */
  datatype NodeId = OfTx(tx: Hash) | OfLog(tx: Hash, index: int)

  datatype Node = Node(tx: Tx, msg: Option<Message>, isIn: bool, next: seq<NodeId>, prev: Option<NodeId>)

  type Nodes = map<NodeId, Node>

  // ----- building -----

  datatype Built = Built(nodes: Nodes, msgTx: map<Hash, Hash>)

  /** The node of the transaction that a message is known to lead to. */
  function Target(b: Built, m: Message): (r: NodeId)
  {
    OfTx(if m.hash in b.msgTx then b.msgTx[m.hash] else NO_HASH)
  }

  function Link(nodes: Nodes, from: NodeId, to: NodeId): (r: Nodes)
    requires from in nodes && to in nodes
  {
    var linked := nodes[from := nodes[from].(next := nodes[from].next + [to])];
    linked[to := linked[to].(prev := Some(from))]
  }

  /** One out-message; none if its transaction has no node yet, where the source fails. */
  function AddOut(b: Built, tx: Tx, i: int, m: Message): (r: Option<Built>)
    requires OfTx(tx.hash) in b.nodes
    ensures r.Some? ==> OfTx(tx.hash) in r.value.nodes
  {
    var me := OfTx(tx.hash);
    if m.destination.None? then
      var log := OfLog(tx.hash, i);
      Some(Built(Link(b.nodes[log := Node(tx, Some(m), false, [], None)], me, log), b.msgTx[m.hash := tx.hash]))
    else if Target(b, m) in b.nodes then Some(b.(nodes := Link(b.nodes, me, Target(b, m))))
    else None
  }

  function AddOuts(b: Built, tx: Tx, i: nat): (r: Option<Built>)
    requires OfTx(tx.hash) in b.nodes && i <= |tx.outMsgs|
    decreases |tx.outMsgs| - i
  {
    if i == |tx.outMsgs| then Some(b)
    else
      var c := AddOut(b, tx, i, tx.outMsgs[i]);
      if c.None? then None else AddOuts(c.value, tx, i + 1)
  }

  /** The node of a transaction, before its out-messages. */
  function Open(b: Built, tx: Tx): (r: Built)
    ensures OfTx(tx.hash) in r.nodes
  {
    Built(b.nodes[OfTx(tx.hash) := Node(tx, tx.inMsg, true, [], None)],
          if tx.inMsg.Some? then b.msgTx[tx.inMsg.value.hash := tx.hash] else b.msgTx)
  }

  function AddTx(b: Built, tx: Tx): (r: Option<Built>)
  {
    if OfTx(tx.hash) in b.nodes then Some(b) else AddOuts(Open(b, tx), tx, 0)
  }

  function AddTxs(b: Built, txs: seq<Tx>, n: nat): (r: Option<Built>)
    requires n <= |txs|
    decreases |txs| - n
  {
    if n == |txs| then Some(b)
    else
      var c := AddTx(b, txs[n]);
      if c.None? then None else AddTxs(c.value, txs, n + 1)
  }

  const START := Built(map[], map[])

  method Build(txs: seq<Tx>) returns (r: Option<Built>)
    ensures r == AddTxs(START, txs, 0)
  {
    var b := START;
    for n := 0 to |txs|
      invariant AddTxs(b, txs, n) == AddTxs(START, txs, 0)
    {
      var tx := txs[n];
      if OfTx(tx.hash) !in b.nodes {
        var c := Open(b, tx);
        for i := 0 to |tx.outMsgs|
          invariant OfTx(tx.hash) in c.nodes
          invariant AddOuts(c, tx, i) == AddOuts(Open(b, tx), tx, 0)
        {
          var d := AddOut(c, tx, i, tx.outMsgs[i]);
          if d.None? { return None; }
          c := d.value;
        }
        b := c;
      }
    }
    r := Some(b);
  }

  // ----- what a node changes -----

  const TRANSFER := 0x0f8a7ea5
  const INTERNAL_TRANSFER := 0x178d4519

  function Or(a: Option<Address>): (r: Address)
  {
    if a.Some? then a.value else NO_ADDRESS
  }

  function OrZero(v: Option<int>): (r: int)
  {
    if v.Some? then v.value else 0
  }

  /** The first of the messages with this hash. */
  function FirstWith(outs: seq<Message>, h: Hash): (r: Option<Message>)
  {
    if outs == [] then None else if outs[0].hash == h then Some(outs[0]) else FirstWith(outs[1..], h)
  }

  /** The message that led to a node, as the previous node's transaction emitted it. */
  function Emission(m: Message, prev: Option<Node>): (r: Option<Message>)
  {
    if prev.Some? && prev.value.msg.Some? then FirstWith(prev.value.tx.outMsgs, m.hash) else None
  }

  /** Every field that a visit reads is set; otherwise the source fails on it. */
  predicate Visitable(node: Node, prev: Option<Node>)
    requires node.msg.Some?
  {
    var m := node.msg.value;
    && (Emission(m, prev).Some? ==> m.source.Some? && Emission(m, prev).value.fwdFee.Some?)
    && (node.isIn ==> m.destination.Some? && node.tx.totalFees.Some? && (m.value.Some? ==> m.source.Some?))
    && (m.opcode == Some(TRANSFER) ==> m.destination.Some?)
    && (m.opcode == Some(INTERNAL_TRANSFER) ==> m.source.Some? && m.destination.Some?)
  }

  /** The forward fees of the messages without a destination, charged to the account. */
  function LogFees(fees: Amounts, a: Address, outs: seq<Message>): (r: Amounts)
  {
    if outs == [] then fees
    else
      var m, rest := outs[|outs| - 1], LogFees(fees, a, outs[..|outs| - 1]);
      if m.fwdFee.Some? && m.destination.None? then Plus(rest, a, m.fwdFee.value) else rest
  }

  /** The sender pays for the message that led here. */
  function Forwarded(c: Changes, m: Message, prev: Option<Node>): (r: Changes)
  {
    var out := Emission(m, prev);
    if out.Some? then c.(fees := Plus(c.fees, Or(m.source), OrZero(out.value.fwdFee))) else c
  }

  /** The receiver pays the transaction, and the value moves from the sender to it. */
  function Received(c: Changes, m: Message, tx: Tx): (r: Changes)
  {
    var to := Or(m.destination);
    var paid := Plus(c.fees, to, OrZero(tx.totalFees));
    Changes(if m.value.Some? then Plus(Plus(c.value, Or(m.source), -m.value.value), to, m.value.value) else c.value,
            LogFees(paid, to, tx.outMsgs), c.jettons)
  }

  /** What a visit makes of the changes, where every field is set. */
  function Visit(c: Changes, node: Node, prev: Option<Node>): (r: Changes)
    requires node.msg.Some?
  {
    var d := Forwarded(c, node.msg.value, prev);
    if node.isIn then Received(d, node.msg.value, node.tx) else d
  }

  function Prev(nodes: Nodes, id: NodeId): (r: Option<Node>)
    requires id in nodes
  {
    var p := nodes[id].prev;
    if p.Some? && p.value in nodes then Some(nodes[p.value]) else None
  }

  type Ledger = map<NodeId, Changes>

  function Entry(l: Ledger, id: NodeId): (r: Changes)
  {
    if id in l then l[id] else EMPTY
  }

  /** One turn of the first traversal. */
  function FirstTurn(nodes: Nodes, l: Ledger, id: NodeId): (r: Ledger)
    requires id in nodes
  {
    if nodes[id].msg.None? then l else l[id := Visit(Entry(l, id), nodes[id], Prev(nodes, id))]
  }

  /** None where a field that is not set is read. */
  method VisitNode(c: Changes, node: Node, prev: Option<Node>) returns (r: Option<Changes>)
    requires node.msg.Some?
    ensures r.Some? <==> Visitable(node, prev)
    ensures r.Some? ==> r.value == Visit(c, node, prev)
  {
    var b := new BalanceChanges(c);
    var m := node.msg.value;
    if prev.Some? && prev.value.msg.Some? {
      var out := FindMessage(prev.value.tx.outMsgs, m.hash);
      if out.Some? {
        if m.source.None? || out.value.fwdFee.None? { return None; }
        b.AddFees(m.source.value, out.value.fwdFee.value);
      }
    }
    if node.isIn {
      var ok := Receive(b, m, node.tx);
      if !ok { return None; }
    }
    if m.opcode == Some(TRANSFER) && m.destination.None? { return None; }
    if m.opcode == Some(INTERNAL_TRANSFER) && (m.source.None? || m.destination.None?) { return None; }
    r := Some(Changes(b.value, b.fees, b.jettons));
  }

  method Receive(b: BalanceChanges, m: Message, tx: Tx) returns (ok: bool)
    modifies b
    ensures ok <==> m.destination.Some? && tx.totalFees.Some? && (m.value.Some? ==> m.source.Some?)
    ensures ok ==> b.Contents() == Received(old(b.Contents()), m, tx)
  {
    if m.destination.None? || tx.totalFees.None? { return false; }
    var to, outs := m.destination.value, tx.outMsgs;
    b.AddFees(to, tx.totalFees.value);
    if m.value.Some? {
      if m.source.None? { return false; }
      b.AddValue(m.source.value, -m.value.value);
      b.AddValue(to, m.value.value);
    }
    ghost var paid, value := b.fees, b.value;
    for i := 0 to |outs|
      invariant b.fees == LogFees(paid, to, outs[..i]) && b.value == value && b.jettons == old(b.jettons)
    {
      assert outs[..i + 1][..i] == outs[..i];
      if outs[i].fwdFee.Some? && outs[i].destination.None? { b.AddFees(to, outs[i].fwdFee.value); }
    }
    assert outs[..|outs|] == outs;
    ok := true;
  }

  method FindMessage(outs: seq<Message>, h: Hash) returns (r: Option<Message>)
    ensures r == FirstWith(outs, h)
  {
    for i := 0 to |outs|
      invariant FirstWith(outs, h) == FirstWith(outs[i..], h)
    {
      if outs[i].hash == h { return Some(outs[i]); }
    }
    r := None;
  }

  // ----- jettons -----

  datatype Wallet = Wallet(owner: Address, master: Address)

  type Wallets = map<Address, Wallet>

  function Master(wallets: Wallets, wallet: Address): (r: Address)
  {
    if wallet in wallets then wallets[wallet].master else NO_ADDRESS
  }

  /** The owner, if it is known to have a wallet of this jetton. */
  function Owner(wallets: Wallets, master: Address, who: Address): (r: Address)
  {
    if Wallet(who, master) in wallets.Values then who else NO_ADDRESS
  }

  predicate IsTransfer(node: Node)
  {
    node.msg.Some? && node.msg.value.opcode == Some(TRANSFER) && !node.msg.value.body.NoBody?
  }

  /** The traversal goes no further at a transfer that cannot be read. */
  predicate Unread(node: Node)
  {
    IsTransfer(node) && (node.msg.value.body.Undecodable? || !node.msg.value.body.whole)
  }

  /** A transfer that can be read names both sides; otherwise the source fails on it. */
  predicate Movable(node: Node)
  {
    IsTransfer(node) && node.msg.value.body.Transfer? ==>
      node.msg.value.source.Some? && node.msg.value.destination.Some?
  }

  function Moved(c: Changes, node: Node, wallets: Wallets): (r: Changes)
  {
    if IsTransfer(node) && node.msg.value.body.Transfer? then
      var m := node.msg.value;
      var master := Master(wallets, Or(m.destination));
      var sent := PlusJetton(c.jettons, Owner(wallets, master, Or(m.source)), master, -m.body.amount);
      c.(jettons := PlusJetton(sent, Owner(wallets, master, m.body.to), master, m.body.amount))
    else c
  }

  /** One turn of the second traversal. */
  function SecondTurn(nodes: Nodes, wallets: Wallets, l: Ledger, total: Changes, id: NodeId): (r: (Ledger, Changes))
    requires id in nodes
  {
    var moved := if nodes[id].msg.Some? then l[id := Moved(Entry(l, id), nodes[id], wallets)] else l;
    (moved, if Unread(nodes[id]) || id !in moved then total else Merge(total, moved[id]))
  }

  // ----- the traversals -----

  ghost function Links(nodes: Nodes): (r: map<NodeId, seq<NodeId>>)
  {
    map id | id in nodes :: nodes[id].next
  }

  /** What the second traversal follows. */
  ghost function ReadLinks(nodes: Nodes): (r: map<NodeId, seq<NodeId>>)
  {
    map id | id in nodes :: if Unread(nodes[id]) then [] else nodes[id].next
  }

  /** The nodes on which the first traversal fails. */
  ghost function Broken(nodes: Nodes): (r: set<NodeId>)
  {
    set id | id in nodes && nodes[id].msg.Some? && !Visitable(nodes[id], Prev(nodes, id))
  }

  /** The nodes on which the second traversal fails. */
  ghost function Stuck(nodes: Nodes): (r: set<NodeId>)
  {
    set id | id in nodes && !Movable(nodes[id])
  }

  ghost predicate Known(nodes: Nodes, order: seq<NodeId>)
  {
    forall i :: 0 <= i < |order| ==> order[i] in nodes
  }

  ghost function FirstTurns(nodes: Nodes, l: Ledger, order: seq<NodeId>): (r: Ledger)
    requires Known(nodes, order)
    decreases |order|
  {
    if order == [] then l else FirstTurns(nodes, FirstTurn(nodes, l, order[0]), order[1..])
  }

  ghost function SecondTurns(nodes: Nodes, wallets: Wallets, l: Ledger, total: Changes, order: seq<NodeId>)
    : (r: (Ledger, Changes))
    requires Known(nodes, order)
    decreases |order|
  {
    if order == [] then (l, total)
    else
      var (m, t) := SecondTurn(nodes, wallets, l, total, order[0]);
      SecondTurns(nodes, wallets, m, t, order[1..])
  }

  /** A traversal in progress: what it has still to take, and all that it takes. */
  ghost predicate Underway(nodes: Nodes, kids: map<NodeId, seq<NodeId>>, bad: set<NodeId>, root: NodeId, n: nat,
                           queue: seq<NodeId>, left: nat, ahead: seq<NodeId>, all: seq<NodeId>)
  {
    && Inside(kids) && root in kids && kids.Keys == nodes.Keys
    && (exists done :: OnTrack(kids, bad, root, n, queue, left, done))
    && ahead == Taken(kids, bad, queue, left) && Known(nodes, ahead)
    && all == Taken(kids, bad, [root], n) && Known(nodes, all)
  }

  lemma {:induction false} TakenKnown(nodes: Nodes, kids: map<NodeId, seq<NodeId>>, bad: set<NodeId>,
                                      queue: seq<NodeId>, n: nat)
    requires Inside(kids) && Queued(kids, queue) && kids.Keys == nodes.Keys
    ensures Known(nodes, Taken(kids, bad, queue, n))
  {
    TakenInside(kids, bad, queue, n);
  }

  lemma {:induction false} SetOut(nodes: Nodes, kids: map<NodeId, seq<NodeId>>, bad: set<NodeId>, root: NodeId)
    returns (n: nat, all: seq<NodeId>)
    requires Inside(kids) && root in kids && kids.Keys == nodes.Keys && Stops(kids, bad, root)
    ensures Underway(nodes, kids, bad, root, n, [root], n, all, all)
  {
    n := StartTrack(kids, bad, root);
    all := Taken(kids, bad, [root], n);
    TakenKnown(nodes, kids, bad, [root], n);
  }

  /** A turn fails, or takes the first of what is ahead. */
  lemma {:induction false} GoOn(nodes: Nodes, kids: map<NodeId, seq<NodeId>>, bad: set<NodeId>, root: NodeId, n: nat,
                                queue: seq<NodeId>, left: nat, ahead: seq<NodeId>, all: seq<NodeId>)
    requires Underway(nodes, kids, bad, root, n, queue, left, ahead, all) && queue != []
    ensures queue[0] in nodes && left > 0
    ensures queue[0] in bad ==> Fails(kids, bad, root)
    ensures queue[0] !in bad ==> ahead != [] && ahead[0] == queue[0]
    ensures queue[0] !in bad ==>
      Underway(nodes, kids, bad, root, n, queue[1..] + kids[queue[0]], left - 1, ahead[1..], all)
  {
    var done :| OnTrack(kids, bad, root, n, queue, left, done);
    TrackTurn(kids, bad, root, n, queue, left, done);
    if queue[0] !in bad {
      assert ahead == [queue[0]] + Taken(kids, bad, Next(kids, queue), left - 1);
    }
  }

  lemma {:induction false} ComeToEnd(nodes: Nodes, kids: map<NodeId, seq<NodeId>>, bad: set<NodeId>, root: NodeId,
                                     n: nat, left: nat, ahead: seq<NodeId>, all: seq<NodeId>)
    requires Underway(nodes, kids, bad, root, n, [], left, ahead, all)
    ensures RunsDry(kids, bad, root) && Order(kids, bad, root) == all && ahead == []
  {
    var done :| OnTrack(kids, bad, root, n, [], left, done);
    TrackEnd(kids, bad, root, n, left, done);
    assert done + [] == done;
  }

  /** The first queue loop, called where it comes to an end: where no cycle can be reached from the root, or a node on
      which it fails. */
  method FirstTraversal(nodes: Nodes, root: NodeId) returns (r: Option<Ledger>)
    requires Inside(Links(nodes)) && root in nodes && Stops(Links(nodes), Broken(nodes), root)
    ensures r.None? ==> Fails(Links(nodes), Broken(nodes), root)
    ensures r.Some? ==> RunsDry(Links(nodes), Broken(nodes), root)
    ensures r.Some? ==> Known(nodes, Order(Links(nodes), Broken(nodes), root))
    ensures r.Some? ==>
      r.value == FirstTurns(nodes, map[], Order(Links(nodes), Broken(nodes), root))
  {
    ghost var kids, bad := Links(nodes), Broken(nodes);
    ghost var n, all := SetOut(nodes, kids, bad, root);
    ghost var left, ahead := n, all;
    var queue, l: Ledger := [root], map[];
    while queue != []
      invariant Underway(nodes, kids, bad, root, n, queue, left, ahead, all)
      invariant FirstTurns(nodes, l, ahead) == FirstTurns(nodes, map[], all)
      decreases left
    {
      GoOn(nodes, kids, bad, root, n, queue, left, ahead, all);
      var id := queue[0];
      var node := nodes[id];
      if node.msg.Some? {
        var c := VisitNode(Entry(l, id), node, Prev(nodes, id));
        if c.None? { return None; }
        l := l[id := c.value];
      }
      queue := queue[1..] + node.next;
      left, ahead := left - 1, ahead[1..];
    }
    ComeToEnd(nodes, kids, bad, root, n, left, ahead, all);
    r := Some(l);
  }

  method SecondTraversal(nodes: Nodes, root: NodeId, wallets: Wallets, first: Ledger)
    returns (r: Option<(Ledger, Changes)>)
    requires Inside(ReadLinks(nodes)) && root in nodes && Stops(ReadLinks(nodes), Stuck(nodes), root)
    ensures r.None? ==> Fails(ReadLinks(nodes), Stuck(nodes), root)
    ensures r.Some? ==> RunsDry(ReadLinks(nodes), Stuck(nodes), root)
    ensures r.Some? ==> Known(nodes, Order(ReadLinks(nodes), Stuck(nodes), root))
    ensures r.Some? ==>
      r.value == SecondTurns(nodes, wallets, first, EMPTY, Order(ReadLinks(nodes), Stuck(nodes), root))
  {
    ghost var kids, bad := ReadLinks(nodes), Stuck(nodes);
    ghost var n, all := SetOut(nodes, kids, bad, root);
    ghost var left, ahead := n, all;
    var queue, l := [root], first;
    var total := new BalanceChanges(EMPTY);
    while queue != []
      invariant Underway(nodes, kids, bad, root, n, queue, left, ahead, all)
      invariant SecondTurns(nodes, wallets, l, total.Contents(), ahead)
        == SecondTurns(nodes, wallets, first, EMPTY, all)
      decreases left
    {
      GoOn(nodes, kids, bad, root, n, queue, left, ahead, all);
      var id := queue[0];
      var node := nodes[id];
      queue := queue[1..];
      left := left - 1;
      if node.msg.Some? {
        var c := MoveJettons(Entry(l, id), node, wallets);
        if c.None? { return None; }
        l := l[id := c.value];
      }
      ahead := ahead[1..];
      if Unread(node) {
        assert queue + [] == queue;
        continue;
      }
      if id in l { total.MergeWith(l[id]); }
      queue := queue + node.next;
    }
    ComeToEnd(nodes, kids, bad, root, n, left, ahead, all);
    r := Some((l, Changes(total.value, total.fees, total.jettons)));
  }

  /** None where a field that is not set is read. */
  method MoveJettons(c: Changes, node: Node, wallets: Wallets) returns (r: Option<Changes>)
    ensures r.Some? <==> Movable(node)
    ensures r.Some? ==> r.value == Moved(c, node, wallets)
  {
    var b := new BalanceChanges(c);
    if IsTransfer(node) && node.msg.value.body.Transfer? {
      var m := node.msg.value;
      if m.source.None? || m.destination.None? { return None; }
      var master := Master(wallets, m.destination.value);
      b.AddJetton(Owner(wallets, master, m.source.value), master, m.body.amount, true);
      b.AddJetton(Owner(wallets, master, m.body.to), master, m.body.amount, false);
    }
    r := Some(Changes(b.value, b.fees, b.jettons));
  }
}
