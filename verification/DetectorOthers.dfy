/** The transactions that are no part of any event, and the ends seen and matched. */
module DetectorOthers {
  import opened Basics
  import opened Detector
  import opened DetectorMessages
  import opened DetectorRuns

  /** Tick-tocks if they are wanted, and every transaction without an ordinary message. */
  function OthersOf(txs: seq<Tx>, tickTocks: bool): (r: seq<(Hash, bool)>)
  {
    if txs == [] then []
    else OthersOf(txs[..|txs| - 1], tickTocks) + Aside(txs[|txs| - 1], tickTocks)
  }

  function Aside(tx: Tx, tickTocks: bool): (r: seq<(Hash, bool)>)
  {
    if tx.tickTock then if tickTocks then [(tx.hash, true)] else []
    else if forall m :: m in tx.messages ==> !IsOrdinary(m) then [(tx.hash, false)]
    else []
  }

  lemma {:induction false} MessageLeavesOthers(s: State, tx: Tx, m: Message)
    ensures var t := OnMessage(s, tx, m); t.others == s.others && t.insertTickTocks == s.insertTickTocks
  {
  }

  lemma {:induction false} MessagesLeaveOthers(s: State, tx: Tx, n: nat, count: nat)
    requires n <= |tx.messages|
    ensures var t := OnMessages(s, tx, n, count).0; t.others == s.others && t.insertTickTocks == s.insertTickTocks
    decreases |tx.messages| - n
  {
    if n < |tx.messages| {
      var m := tx.messages[n];
      MessageLeavesOthers(s, tx, m);
      MessagesLeaveOthers(OnMessage(s, tx, m), tx, n + 1, count + if Counts(s, m) then 1 else 0);
    }
  }

  /** On a good stream a message counts if and only if it is ordinary. */
  lemma {:induction false} CountsOrdinary(txs: seq<Tx>, k: nat, n: nat, s: State, known: map<Hash, Tx>)
    requires GoodStream(txs) && k < |txs| && n < |txs[k].messages| && !txs[k].tickTock
    requires RunOk(s, EndsAt(txs, k, n), known)
    ensures Counts(s, txs[k].messages[n]) <==> GetMessageType(txs[k].messages[n]) == Ord
  {
    NextEnd(txs, k, n);
  }

  lemma {:induction false} MessagesStep(s: State, tx: Tx, n: nat, count: nat, next: State, more: nat)
    requires n < |tx.messages| && next == OnMessage(s, tx, tx.messages[n])
    requires more == count + if Counts(s, tx.messages[n]) then 1 else 0
    ensures OnMessages(s, tx, n, count) == OnMessages(next, tx, n + 1, more)
  {
  }

  lemma {:induction false} OrdOneMore(ms: seq<Message>, n: nat)
    requires n < |ms|
    ensures OrdCount(ms[..n + 1]) == OrdCount(ms[..n]) + if GetMessageType(ms[n]) == Ord then 1 else 0
  {
    assert ms[..n + 1][..n] == ms[..n];
  }

  lemma {:induction false} CountIsOrdinary(txs: seq<Tx>, k: nat, n: nat, s: State, known: map<Hash, Tx>, count: nat)
    requires GoodStream(txs) && k < |txs| && n <= |txs[k].messages| && !txs[k].tickTock
    requires RunOk(s, EndsAt(txs, k, n), known) && txs[k].hash in known && known[txs[k].hash] == txs[k]
    ensures OnMessages(s, txs[k], n, count).1 + OrdCount(txs[k].messages[..n]) == count + OrdCount(txs[k].messages)
    decreases |txs[k].messages| - n
  {
    var ms := txs[k].messages;
    if n == |ms| {
      assert ms[..n] == ms;
    } else {
      MessageRunStep(txs, k, n, s, known);
      CountTurn(txs, k, n, s, OnMessage(s, txs[k], ms[n]), known, count);
    }
  }

  lemma {:induction false} CountTurn(txs: seq<Tx>, k: nat, n: nat, s: State, next: State, known: map<Hash, Tx>,
                                     count: nat)
    requires GoodStream(txs) && k < |txs| && n < |txs[k].messages| && !txs[k].tickTock
    requires RunOk(s, EndsAt(txs, k, n), known) && txs[k].hash in known && known[txs[k].hash] == txs[k]
    requires next == OnMessage(s, txs[k], txs[k].messages[n]) && RunOk(next, EndsAt(txs, k, n + 1), known)
    ensures OnMessages(s, txs[k], n, count).1 + OrdCount(txs[k].messages[..n]) == count + OrdCount(txs[k].messages)
    decreases |txs[k].messages| - n, 0
  {
    var more := count + if Counts(s, txs[k].messages[n]) then 1 else 0;
    CountsOrdinary(txs, k, n, s, known);
    MessagesStep(s, txs[k], n, count, next, more);
    CountIsOrdinary(txs, k, n + 1, next, known, more);
    OrdOneMore(txs[k].messages, n);
  }

  /** A transaction goes to the others exactly if nothing of it counted. */
  lemma {:induction false} FinishAddsOther(s: State, tx: Tx)
    requires !tx.tickTock
    ensures var t := ProcessTx(s, tx);
      && t.others == s.others + (if OnMessages(s, tx, 0, 0).1 == 0 then [(tx.hash, false)] else [])
      && t.insertTickTocks == s.insertTickTocks
  {
    MessagesLeaveOthers(s, tx, 0, 0);
  }

  lemma {:induction false} CountOfTx(txs: seq<Tx>, k: nat, s: State)
    requires GoodStream(txs) && k < |txs| && !txs[k].tickTock && RunOk(s, EndsOf(txs[..k]), KnownOf(txs[..k]))
    ensures OnMessages(s, txs[k], 0, 0).1 == OrdCount(txs[k].messages)
  {
    NextIsNew(txs, k);
    NewKnown(s, EndsOf(txs[..k]), KnownOf(txs[..k]), txs[k]);
    CountIsOrdinary(txs, k, 0, s, KnownOf(txs[..k])[txs[k].hash := txs[k]], 0);
  }

  lemma {:induction false} CountOnRun(txs: seq<Tx>, tickTocks: bool, k: nat)
    requires GoodStream(txs) && k < |txs|
    ensures !txs[k].tickTock ==> OnMessages(Run(Init(tickTocks), txs[..k]), txs[k], 0, 0).1 == OrdCount(txs[k].messages)
  {
    PrefixGood(txs, k);
    RunKeepsInvariant(txs[..k], tickTocks);
    if !txs[k].tickTock { CountOfTx(txs, k, Run(Init(tickTocks), txs[..k])); }
  }

  lemma {:induction false} TxAddsOther(s: State, tx: Tx)
    requires !tx.tickTock ==> OnMessages(s, tx, 0, 0).1 == OrdCount(tx.messages)
    ensures var t := ProcessTx(s, tx);
      t.others == s.others + Aside(tx, s.insertTickTocks) && t.insertTickTocks == s.insertTickTocks
  {
    OrdCountExactly(tx.messages);
    if !tx.tickTock { FinishAddsOther(s, tx); }
  }

  /** The queue of the others holds exactly the tick-tocks, if they are wanted, and the transactions without an ordinary
      message, in the order of the stream. */
  lemma {:induction false} OthersExactly(txs: seq<Tx>, tickTocks: bool)
    requires GoodStream(txs)
    ensures var s := Run(Init(tickTocks), txs); s.others == OthersOf(txs, tickTocks) && s.insertTickTocks == tickTocks
  {
    if txs != [] {
      var k := |txs| - 1;
      PrefixGood(txs, k);
      OthersExactly(txs[..k], tickTocks);
      CountOnRun(txs, tickTocks, k);
      TxAddsOther(Run(Init(tickTocks), txs[..k]), txs[k]);
    }
  }

  // ----- the counters of ends -----

  /** The ordinary ends delivered. */
  function OrdTotal(txs: seq<Tx>): (r: nat)
  {
    if txs == [] then 0
    else OrdTotal(txs[..|txs| - 1]) + if txs[|txs| - 1].tickTock then 0 else Ordinaries(txs[|txs| - 1].messages)
  }

  /** The transactions set aside that are not tick-tocks. */
  function PlainOthers(others: seq<(Hash, bool)>): (r: nat)
  {
    if others == [] then 0 else PlainOthers(others[..|others| - 1]) + if others[|others| - 1].1 then 0 else 1
  }

  /** Ends matched and ends waiting. */
  function EndsSeen(s: State): (r: int)
  {
    2 * s.found + |s.edges|
  }

  lemma {:induction false} EdgeLeaves(s: State, left: Tx, right: Tx)
    ensures var t := OnEdge(s, left, right); t.edges == s.edges && t.found == s.found && t.ignored == s.ignored
  {
    var t := CountEdge(s, left, right);
    assert t.edges == s.edges && t.found == s.found && t.ignored == s.ignored;
  }

  lemma {:induction false} OneWaitsLess<K, V>(m: map<K, V>, k: K)
    requires k in m
    ensures |m - {k}| == |m| - 1
  {
    assert (m - {k}).Keys == m.Keys - {k};
  }

  lemma {:induction false} OneWaitsMore<K, V>(m: map<K, V>, k: K, v: V)
    requires k !in m
    ensures |m[k := v]| == |m| + 1
  {
    assert m[k := v].Keys == m.Keys + {k};
  }

  lemma {:induction false} MessageMatches(s: State, tx: Tx, m: Message)
    requires Other(EndOf(m)) in s.edges
    ensures var t := OnMessage(s, tx, m);
      t.edges == s.edges - {Other(EndOf(m))} && t.found == s.found + 1 && t.ignored == s.ignored
  {
    var other := Other(EndOf(m));
    var t := s.(edges := s.edges - {other}, found := s.found + 1);
    EdgeLeaves(t, s.edges[other], tx);
    EdgeLeaves(t, tx, s.edges[other]);
  }

  /** A message that counts adds one end to those seen, unless it takes the place of a waiting one. */
  lemma {:induction false} MessageSeesEnd(s: State, tx: Tx, m: Message)
    requires Other(EndOf(m)) in s.edges || EndOf(m) !in s.edges
    ensures var t := OnMessage(s, tx, m);
      EndsSeen(t) == EndsSeen(s) + (if Counts(s, m) then 1 else 0) && t.ignored == s.ignored
  {
    if Other(EndOf(m)) in s.edges {
      MessageMatches(s, tx, m);
      OneWaitsLess(s.edges, Other(EndOf(m)));
    } else {
      OneWaitsMore(s.edges, EndOf(m), tx);
    }
  }

  lemma {:induction false} NextSeesEnd(txs: seq<Tx>, k: nat, n: nat, s: State, known: map<Hash, Tx>)
    requires GoodStream(txs) && k < |txs| && n < |txs[k].messages| && !txs[k].tickTock
    requires RunOk(s, EndsAt(txs, k, n), known)
    ensures var m := txs[k].messages[n]; var t := OnMessage(s, txs[k], m);
      EndsSeen(t) == EndsSeen(s) + (if Counts(s, m) then 1 else 0) && t.ignored == s.ignored
  {
    NextEnd(txs, k, n);
    MessageSeesEnd(s, txs[k], txs[k].messages[n]);
  }

  /** Over the messages of a transaction the ends seen grow by as many as count. */
  lemma {:induction false} MessagesSeeEnds(txs: seq<Tx>, k: nat, n: nat, s: State, known: map<Hash, Tx>, count: nat)
    requires GoodStream(txs) && k < |txs| && n <= |txs[k].messages| && !txs[k].tickTock
    requires RunOk(s, EndsAt(txs, k, n), known) && txs[k].hash in known && known[txs[k].hash] == txs[k]
    ensures var r := OnMessages(s, txs[k], n, count);
      EndsSeen(r.0) + count == EndsSeen(s) + r.1 && r.0.ignored == s.ignored
    decreases |txs[k].messages| - n
  {
    if n < |txs[k].messages| {
      MessageRunStep(txs, k, n, s, known);
      EndsTurn(txs, k, n, s, OnMessage(s, txs[k], txs[k].messages[n]), known, count);
    }
  }

  lemma {:induction false} EndsTurn(txs: seq<Tx>, k: nat, n: nat, s: State, next: State, known: map<Hash, Tx>,
                                    count: nat)
    requires GoodStream(txs) && k < |txs| && n < |txs[k].messages| && !txs[k].tickTock
    requires RunOk(s, EndsAt(txs, k, n), known) && txs[k].hash in known && known[txs[k].hash] == txs[k]
    requires next == OnMessage(s, txs[k], txs[k].messages[n]) && RunOk(next, EndsAt(txs, k, n + 1), known)
    ensures var r := OnMessages(s, txs[k], n, count);
      EndsSeen(r.0) + count == EndsSeen(s) + r.1 && r.0.ignored == s.ignored
    decreases |txs[k].messages| - n, 0
  {
    var more := count + if Counts(s, txs[k].messages[n]) then 1 else 0;
    NextSeesEnd(txs, k, n, s, known);
    MessagesSeeEnds(txs, k, n + 1, next, known, more);
    MessagesStep(s, txs[k], n, count, next, more);
  }

  lemma {:induction false} TxSeesEnds(txs: seq<Tx>, k: nat, s: State)
    requires GoodStream(txs) && k < |txs| && !txs[k].tickTock && RunOk(s, EndsOf(txs[..k]), KnownOf(txs[..k]))
    ensures EndsSeen(ProcessTx(s, txs[k])) == EndsSeen(s) + OrdCount(txs[k].messages)
    ensures ProcessTx(s, txs[k]).ignored == s.ignored + if OrdCount(txs[k].messages) == 0 then 1 else 0
  {
    CountOfTx(txs, k, s);
    NextIsNew(txs, k);
    NewKnown(s, EndsOf(txs[..k]), KnownOf(txs[..k]), txs[k]);
    MessagesSeeEnds(txs, k, 0, s, KnownOf(txs[..k])[txs[k].hash := txs[k]], 0);
  }

  lemma {:induction false} EndsOnRun(txs: seq<Tx>, tickTocks: bool, k: nat)
    requires GoodStream(txs) && k < |txs|
    ensures var s := Run(Init(tickTocks), txs[..k]); var t := ProcessTx(s, txs[k]);
      && EndsSeen(t) == EndsSeen(s) + (if txs[k].tickTock then 0 else OrdCount(txs[k].messages))
      && t.ignored == s.ignored + if !txs[k].tickTock && OrdCount(txs[k].messages) == 0 then 1 else 0
  {
    PrefixGood(txs, k);
    RunKeepsInvariant(txs[..k], tickTocks);
    if !txs[k].tickTock { TxSeesEnds(txs, k, Run(Init(tickTocks), txs[..k])); }
  }

  lemma {:induction false} PlainOneMore(others: seq<(Hash, bool)>, tx: Tx, tickTocks: bool)
    ensures PlainOthers(others + Aside(tx, tickTocks))
         == PlainOthers(others) + if !tx.tickTock && OrdCount(tx.messages) == 0 then 1 else 0
  {
    var aside := Aside(tx, tickTocks);
    OrdCountExactly(tx.messages);
    if aside == [] {
      assert others + aside == others;
    } else {
      assert (others + aside)[..|others|] == others;
    }
  }

  /** Every ordinary end delivered is matched with one other or waits, and the ignored transactions are the plain ones
      set aside. */
  lemma {:induction false} EndsConserved(txs: seq<Tx>, tickTocks: bool)
    requires GoodStream(txs)
    ensures EndsSeen(Run(Init(tickTocks), txs)) == OrdTotal(txs)
    ensures Run(Init(tickTocks), txs).ignored == PlainOthers(OthersOf(txs, tickTocks))
  {
    if txs != [] {
      var k := |txs| - 1;
      PrefixGood(txs, k);
      EndsConserved(txs[..k], tickTocks);
      EndsOnRun(txs, tickTocks, k);
      OrdCountExactly(txs[k].messages);
      PlainOneMore(OthersOf(txs[..k], tickTocks), txs[k], tickTocks);
    }
  }
}
