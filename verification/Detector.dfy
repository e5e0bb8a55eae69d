/** The event detector on values: the two ends of each message are matched, and a graph is emitted when its counter is
    zero. */
module Detector {
  import opened Basics

  /** An account by workchain and 256-bit address. */
  datatype Account = Account(workchain: int, address: nat)

  const SYSTEM_ACCOUNTS: set<Account> :=
    {Account(-1, 0x3333333333333333333333333333333333333333333333333333333333333333),
     Account(-1, 0x5555555555555555555555555555555555555555555555555555555555555555),
     Account(-1, 0)}

  /** One end of a message as listed on a transaction, with the message's own source and destination. */
  datatype Message = Message(hash: Hash, isInput: bool, source: Option<Account>, destination: Option<Account>)

  datatype Tx = Tx(hash: Hash, tickTock: bool, messages: seq<Message>)

  datatype MessageType = External | Log | System | Ord

  function GetMessageType(m: Message): (r: MessageType)
  {
    if m.source.None? then External
    else if m.destination.None? then Log
    else if m.source.value in SYSTEM_ACCOUNTS && m.destination.value in SYSTEM_ACCOUNTS then System
    else Ord
  }

  /** A message end is named by its message and direction. */
  datatype End = End(msg: Hash, isInput: bool)

  function Other(e: End): (r: End)
  {
    End(e.msg, !e.isInput)
  }

  function EndOf(m: Message): (r: End)
  {
    End(m.hash, m.isInput)
  }

  // ----- event graphs -----

  /** The transaction, forgotten once nothing is open, and its number of open ends. */
  datatype Slot = Slot(tx: Option<Tx>, open: int)

  datatype Graph = Graph(txs: map<Hash, Slot>, edges: seq<(Hash, Hash)>, edgesLeft: int)

  const EMPTY := Graph(map[], [], 0)

  function OrdCount(ms: seq<Message>): (r: nat)
  {
    if ms == [] then 0 else OrdCount(ms[..|ms| - 1]) + if GetMessageType(ms[|ms| - 1]) == Ord then 1 else 0
  }

  function AddTx(g: Graph, tx: Tx): (r: Graph)
    ensures r.txs.Keys == g.txs.Keys + {tx.hash}
  {
    if tx.hash in g.txs then g
    else
      var count := OrdCount(tx.messages);
      Graph(g.txs[tx.hash := Slot(Some(tx), count)], g.edges, g.edgesLeft + count)
  }

  function CloseOne(s: Slot): (r: Slot)
  {
    Slot(if s.open - 1 == 0 then None else s.tx, s.open - 1)
  }

  function AddEdge(g: Graph, left: Tx, right: Tx): (r: Graph)
    ensures r.txs.Keys == g.txs.Keys + {left.hash, right.hash}
  {
    var h := AddTx(AddTx(g, left), right);
    var txs := h.txs[left.hash := CloseOne(h.txs[left.hash])];
    Graph(txs[right.hash := CloseOne(txs[right.hash])], h.edges + [(left.hash, right.hash)], h.edgesLeft - 2)
  }

  /** Takes over the other graph's transactions and edges; its counter is not added. */
  function MergeWith(left: Graph, right: Graph): (r: Graph)
  {
    Graph(left.txs + right.txs, left.edges + right.edges, left.edgesLeft)
  }

  // ----- the detector -----

  /** `edges` holds the unmatched ends with their transactions, `events` the graph of every transaction that is in
      an active one, `emitted` the graphs written out, `others` the queue of transactions outside any event. */
  datatype State = State(edges: map<End, Tx>, events: map<Hash, Graph>, active: int, finished: int, merges: int,
                         found: int, ignored: int, others: seq<(Hash, bool)>,
                         emitted: seq<Graph>, insertTickTocks: bool)

  function Init(insertTickTocks: bool): (r: State)
  {
    State(map[], map[], 0, 0, 0, 0, 0, [], [], insertTickTocks)
  }

  /** All members of the graph point to it. */
  function PointTo(events: map<Hash, Graph>, g: Graph): (r: map<Hash, Graph>)
  {
    events + map h | h in g.txs :: g
  }

  /** Emits a finished graph, or keeps it. */
  function CheckFinished(s: State, g: Graph): (r: State)
  {
    if g.edgesLeft == 0 then
      s.(events := s.events - g.txs.Keys, finished := s.finished + 1, active := s.active - 1,
           emitted := s.emitted + [g])
    else
      s.(events := PointTo(s.events, g))
  }

  /** The graph that takes an edge: a new one, the one that either end is in, or the two merged. */
  function Base(events: map<Hash, Graph>, left: Tx, right: Tx): (r: Graph)
  {
    var l, r := left.hash in events, right.hash in events;
    if l && r then MergeWith(events[left.hash], events[right.hash])
    else if l then events[left.hash]
    else if r then events[right.hash]
    else EMPTY
  }

  /** A new graph is one more active event, a merge one fewer. */
  function Opened(known: set<Hash>, left: Tx, right: Tx): (r: int)
  {
    if left.hash in known && right.hash in known then -1
    else if left.hash in known || right.hash in known then 0
    else 1
  }

  function Merged(known: set<Hash>, left: Tx, right: Tx): (r: int)
  {
    if left.hash in known && right.hash in known then 1 else 0
  }

  function CountEdge(s: State, left: Tx, right: Tx): (r: State)
  {
    s.(active := s.active + Opened(s.events.Keys, left, right), merges := s.merges + Merged(s.events.Keys, left, right))
  }

  function OnEdge(s: State, left: Tx, right: Tx): (r: State)
  {
    CheckFinished(CountEdge(s, left, right), AddEdge(Base(s.events, left, right), left, right))
  }

  function OnMessage(s: State, tx: Tx, m: Message): (r: State)
  {
    var other := Other(EndOf(m));
    if other in s.edges then
      var tx2 := s.edges[other];
      var t := s.(edges := s.edges - {other}, found := s.found + 1);
      if m.isInput then OnEdge(t, tx2, tx) else OnEdge(t, tx, tx2)
    else if GetMessageType(m) == Ord then
      s.(edges := s.edges[EndOf(m) := tx])
    else
      s
  }

  /** Whether the message adds to the count that keeps a transaction from being ignored. */
  predicate Counts(s: State, m: Message)
  {
    Other(EndOf(m)) in s.edges || GetMessageType(m) == Ord
  }

  /** The loop over the messages from the `n`-th on, with the running count. */
  function OnMessages(s: State, tx: Tx, n: nat, count: nat): (r: (State, nat))
    requires n <= |tx.messages|
    decreases |tx.messages| - n
  {
    if n == |tx.messages| then (s, count)
    else
      var m := tx.messages[n];
      OnMessages(OnMessage(s, tx, m), tx, n + 1, count + if Counts(s, m) then 1 else 0)
  }

  /** A transaction without any counted message goes to the queue of the others. */
  function Finish(s: State, tx: Tx, count: nat): (r: State)
  {
    if count == 0 then s.(others := s.others + [(tx.hash, false)], ignored := s.ignored + 1) else s
  }

  function ProcessTx(s: State, tx: Tx): (r: State)
  {
    if tx.tickTock then
      if s.insertTickTocks then s.(others := s.others + [(tx.hash, true)]) else s
    else
      var (t, count) := OnMessages(s, tx, 0, 0);
      Finish(t, tx, count)
  }

  function Run(s: State, txs: seq<Tx>): (r: State)
  {
    if txs == [] then s else ProcessTx(Run(s, txs[..|txs| - 1]), txs[|txs| - 1])
  }
}
