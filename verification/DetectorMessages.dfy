/** Which messages link transactions to an event, from the message alone. */
module DetectorMessages {
  import opened Basics
  import opened Detector

  /** The elector, the configuration contract or the zero account of the masterchain. */
  predicate IsSystem(a: Account)
  {
    a.workchain == -1 &&
      (a.address == 0x3333333333333333333333333333333333333333333333333333333333333333 ||
       a.address == 0x5555555555555555555555555555555555555555555555555555555555555555 || a.address == 0)
  }

  /** The message goes from one account to another, and not both are system accounts. */
  predicate IsOrdinary(m: Message)
  {
    m.source.Some? && m.destination.Some? && !(IsSystem(m.source.value) && IsSystem(m.destination.value))
  }

  lemma {:induction false} OrdinaryExactly(m: Message)
    ensures GetMessageType(m) == Ord <==> IsOrdinary(m)
  {
  }

  /** The number of ordinary messages. */
  function Ordinaries(ms: seq<Message>): (r: nat)
  {
    if ms == [] then 0 else (if IsOrdinary(ms[0]) then 1 else 0) + Ordinaries(ms[1..])
  }

  lemma {:induction false} OrdinariesConcat(ms: seq<Message>, m: Message)
    ensures Ordinaries(ms + [m]) == Ordinaries(ms) + if IsOrdinary(m) then 1 else 0
  {
    if ms == [] {
      assert ms + [m] == [m];
    } else {
      assert (ms + [m])[1..] == ms[1..] + [m];
      OrdinariesConcat(ms[1..], m);
    }
  }

  lemma {:induction false} OrdCountExactly(ms: seq<Message>)
    ensures OrdCount(ms) == Ordinaries(ms)
    ensures OrdCount(ms) == 0 <==> forall m :: m in ms ==> !IsOrdinary(m)
  {
    if ms != [] {
      var n := |ms| - 1;
      OrdCountExactly(ms[..n]);
      OrdinaryExactly(ms[n]);
      OrdinariesConcat(ms[..n], ms[n]);
      assert ms == ms[..n] + [ms[n]];
    }
  }

  // ----- an event of two transactions -----

  lemma {:induction false} RunOne(s: State, txs: seq<Tx>, tx: Tx)
    ensures Run(s, txs + [tx]) == ProcessTx(Run(s, txs), tx)
  {
    assert (txs + [tx])[..|txs|] == txs;
  }

  lemma {:induction false} OneMessage(s: State, tx: Tx, m: Message)
    requires tx.messages == [m] && !tx.tickTock && GetMessageType(m) == Ord
    ensures ProcessTx(s, tx) == OnMessage(s, tx, m)
  {
    assert OnMessages(s, tx, 0, 0) == OnMessages(OnMessage(s, tx, m), tx, 1, 1);
  }

  /** Both ends of a first edge, with the number of their ordinary messages. */
  lemma {:induction false} FirstEdge(left: Tx, right: Tx)
    requires left.hash != right.hash
    ensures var g := AddEdge(EMPTY, left, right); var l, r := OrdCount(left.messages), OrdCount(right.messages);
      && g.edgesLeft == l + r - 2 && g.edges == [(left.hash, right.hash)]
      && g.txs.Keys == {left.hash, right.hash} && g.txs[left.hash].open == l - 1 && g.txs[right.hash].open == r - 1
  {
  }

  lemma {:induction false} Waits(s: State, tx: Tx, m: Message)
    requires Other(EndOf(m)) !in s.edges && GetMessageType(m) == Ord
    ensures OnMessage(s, tx, m) == s.(edges := s.edges[EndOf(m) := tx])
  {
  }

  lemma {:induction false} LastEndEmits(s: State, left: Tx, right: Tx, w: Message)
    requires s.events == map[] && w.isInput && s.edges == map[Other(EndOf(w)) := left]
    requires OrdCount(left.messages) == 1 && OrdCount(right.messages) == 1 && left.hash != right.hash
    ensures var g := AddEdge(EMPTY, left, right); var t := OnMessage(s, right, w);
      t.emitted == s.emitted + [g] && t.others == s.others && t.edges == map[]
  {
    FirstEdge(left, right);
  }

  /** One transaction sends an ordinary message, another receives it: the two are an event, whatever their accounts. */
  lemma {:induction false} TwoAreAnEvent(left: Tx, right: Tx, m: Message, w: Message, tickTocks: bool)
    requires left == Tx(left.hash, false, [m]) && right == Tx(right.hash, false, [w]) && left.hash != right.hash
    requires m.hash == w.hash && !m.isInput && w.isInput && IsOrdinary(m) && IsOrdinary(w)
    ensures var s := Run(Init(tickTocks), [left, right]);
      && |s.emitted| == 1 && s.emitted[0].txs.Keys == {left.hash, right.hash}
      && s.emitted[0].edges == [(left.hash, right.hash)] && s.others == []
  {
    var s := Init(tickTocks);
    OrdinaryExactly(m);
    OrdinaryExactly(w);
    RunOne(s, [], left);
    RunOne(s, [left], right);
    assert [] + [left] == [left] && [left] + [right] == [left, right] && Run(s, []) == s;
    OneMessage(s, left, m);
    Waits(s, left, m);
    OneMessage(Run(s, [left]), right, w);
    OrdCountExactly(left.messages);
    OrdCountExactly(right.messages);
    LastEndEmits(Run(s, [left]), left, right, w);
    FirstEdge(left, right);
  }

  const ELECTOR := Account(-1, 0x3333333333333333333333333333333333333333333333333333333333333333)

  /** A message from the elector to a wallet. */
  function StakeBack(wallet: Account, isInput: bool): (m: Message)
  {
    Message(7, isInput, Some(ELECTOR), Some(wallet))
  }

  /** With one system end only, the two transactions are an event. */
  lemma {:induction false} OneSystemEndIsAnEvent(wallet: Account, tickTocks: bool)
    requires !IsSystem(wallet)
    ensures var sent, received := Tx(1, false, [StakeBack(wallet, false)]), Tx(2, false, [StakeBack(wallet, true)]);
      var s := Run(Init(tickTocks), [sent, received]);
      |s.emitted| == 1 && s.emitted[0].txs.Keys == {1, 2} && s.others == []
  {
    var left, right := Tx(1, false, [StakeBack(wallet, false)]), Tx(2, false, [StakeBack(wallet, true)]);
    TwoAreAnEvent(left, right, StakeBack(wallet, false), StakeBack(wallet, true), tickTocks);
  }
}
