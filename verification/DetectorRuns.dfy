/** Whole runs of the detector on streams that deliver senders before receivers: soundness and completeness. */
module DetectorRuns {
  import opened Basics
  import opened Detector
  import opened DetectorGraphs
  import opened DetectorInvariant
  import opened DetectorCounters

  // ----- the streams -----

  ghost predicate At(txs: seq<Tx>, i: int, a: int)
  {
    0 <= i < |txs| && 0 <= a < |txs[i].messages|
  }

  /** Every transaction is delivered once, every message end belongs to one transaction, the two ends of a message
      agree on its source and destination, a transaction consumes at most one message, and senders come first. */
  ghost predicate GoodStream(txs: seq<Tx>)
  {
    && (forall i, j :: 0 <= i < j < |txs| ==> txs[i].hash != txs[j].hash)
    && (forall i, a, j, b :: At(txs, i, a) && At(txs, j, b) ==>
          GoodPair(txs[i].messages[a], txs[j].messages[b], i, a, j, b))
  }

  ghost predicate GoodPair(m: Message, w: Message, i: int, a: int, j: int, b: int)
  {
    && (EndOf(m) == EndOf(w) ==> i == j && a == b)
    && (m.hash == w.hash ==> m.source == w.source && m.destination == w.destination)
    && (m.hash == w.hash && !m.isInput && w.isInput ==> i < j)
    && (i == j && m.isInput && w.isInput ==> a == b)
  }

  // ----- the history of a stream -----

  ghost function AddEnds(ends: map<End, Tx>, tx: Tx, n: nat): (r: map<End, Tx>)
    requires n <= |tx.messages|
  {
    if n == 0 then ends
    else
      var before := AddEnds(ends, tx, n - 1);
      var m := tx.messages[n - 1];
      if GetMessageType(m) == Ord then before[EndOf(m) := tx] else before
  }

  ghost function EndsOf(txs: seq<Tx>): (r: map<End, Tx>)
  {
    if txs == [] then map[]
    else
      var before := EndsOf(txs[..|txs| - 1]);
      var tx := txs[|txs| - 1];
      if tx.tickTock then before else AddEnds(before, tx, |tx.messages|)
  }

  ghost function KnownOf(txs: seq<Tx>): (r: map<Hash, Tx>)
  {
    if txs == [] then map[]
    else
      var before := KnownOf(txs[..|txs| - 1]);
      var tx := txs[|txs| - 1];
      if tx.tickTock then before else before[tx.hash := tx]
  }

  /** The ends processed when the first `n` messages of transaction `k` have been. */
  ghost function EndsAt(txs: seq<Tx>, k: nat, n: nat): (r: map<End, Tx>)
    requires k < |txs| && n <= |txs[k].messages|
  {
    AddEnds(EndsOf(txs[..k]), txs[k], n)
  }

  /** End `e` was listed at message `a` of transaction `i`. */
  ghost predicate Listed(txs: seq<Tx>, e: End, tx: Tx, i: int, a: int)
  {
    && At(txs, i, a) && !txs[i].tickTock && txs[i] == tx
    && EndOf(txs[i].messages[a]) == e && GetMessageType(txs[i].messages[a]) == Ord
  }

  lemma {:induction false} EndsListed(txs: seq<Tx>, e: End) returns (i: int, a: int)
    requires e in EndsOf(txs)
    ensures Listed(txs, e, EndsOf(txs)[e], i, a)
  {
    var k := |txs| - 1;
    var before := txs[..k];
    if txs[k].tickTock {
      i, a := EndsListed(before, e);
    } else {
      a := AddedListed(EndsOf(before), txs[k], |txs[k].messages|, e);
      if a < 0 {
        i, a := EndsListed(before, e);
      } else {
        i := k;
      }
    }
  }

  /** Either the end is one of the first `n` of the transaction, or it was there before (a == -1). */
  lemma {:induction false} AddedListed(ends: map<End, Tx>, tx: Tx, n: nat, e: End) returns (a: int)
    requires n <= |tx.messages| && e in AddEnds(ends, tx, n)
    ensures a == -1 || (0 <= a < n && EndOf(tx.messages[a]) == e && GetMessageType(tx.messages[a]) == Ord
                        && AddEnds(ends, tx, n)[e] == tx)
    ensures a == -1 ==> e in ends && AddEnds(ends, tx, n)[e] == ends[e]
    decreases n
  {
    if n == 0 {
      a := -1;
    } else {
      var m := tx.messages[n - 1];
      if GetMessageType(m) == Ord && EndOf(m) == e {
        a := n - 1;
      } else {
        a := AddedListed(ends, tx, n - 1, e);
      }
    }
  }

  lemma {:induction false} EndsAtListed(txs: seq<Tx>, k: nat, n: nat, e: End) returns (i: int, a: int)
    requires k < |txs| && n <= |txs[k].messages| && !txs[k].tickTock && e in EndsAt(txs, k, n)
    ensures Listed(txs, e, EndsAt(txs, k, n)[e], i, a) && i <= k && (i == k ==> a < n)
  {
    a := AddedListed(EndsOf(txs[..k]), txs[k], n, e);
    if a < 0 {
      i, a := EndsListed(txs[..k], e);
    } else {
      i := k;
    }
  }

  // ----- one message of a stream -----

  /** Before its turn an end has not been processed; its other end, if processed, is a waiting sender. */
  lemma {:induction false} NextEnd(txs: seq<Tx>, k: nat, n: nat)
    requires GoodStream(txs) && k < |txs| && n < |txs[k].messages| && !txs[k].tickTock
    ensures var m := txs[k].messages[n]; var ends := EndsAt(txs, k, n);
      && EndOf(m) !in ends
      && (Other(EndOf(m)) in ends ==>
           m.isInput && ends[Other(EndOf(m))].hash != txs[k].hash && GetMessageType(m) == Ord)
  {
    var m := txs[k].messages[n];
    var ends := EndsAt(txs, k, n);
    if EndOf(m) in ends {
      var i, a := EndsAtListed(txs, k, n, EndOf(m));
    }
    if Other(EndOf(m)) in ends {
      var i, a := EndsAtListed(txs, k, n, Other(EndOf(m)));
      assert GoodPair(txs[i].messages[a], txs[k].messages[n], i, a, k, n);
      assert GoodPair(txs[k].messages[n], txs[i].messages[a], k, n, i, a);
    }
  }

  /** When its in-message is matched, no other end of the transaction is. */
  lemma {:induction false} NothingElseMatched(txs: seq<Tx>, k: nat, n: nat)
    requires GoodStream(txs) && k < |txs| && n < |txs[k].messages| && !txs[k].tickTock && txs[k].messages[n].isInput
    ensures Unmatched(EndsAt(txs, k, n), txs[k]) == OrdEnds(txs[k])
  {
    var ends := EndsAt(txs, k, n);
    forall e | e in OrdEnds(txs[k]) ensures !Matched(ends, e) {
      if Matched(ends, e) {
        var i, a := EndsAtListed(txs, k, n, e);
        var j, b := EndsAtListed(txs, k, n, Other(e));
      }
    }
  }

  // ----- the invariant over a run -----

  lemma {:induction false} GraphKnown(ends: map<End, Tx>, known: map<Hash, Tx>, tx: Tx, g: Graph)
    requires GraphOk(ends, known, g) && tx.hash !in known
    ensures GraphOk(ends, known[tx.hash := tx], g)
  {
    var more := known[tx.hash := tx];
    assert forall h :: h in g.txs ==> more[h] == known[h];
    assert Open(ends, more, g.txs.Keys) == Open(ends, known, g.txs.Keys);
  }

  lemma {:induction false} NewWorld(ends: map<End, Tx>, known: map<Hash, Tx>, tx: Tx)
    requires World(ends, known) && tx.hash !in known && DistinctEnds(tx.messages)
    requires forall h :: h in known ==> OrdEnds(known[h]) !! OrdEnds(tx)
    ensures World(ends, known[tx.hash := tx])
    ensures Unmatched(ends, tx) == OrdEnds(tx)
  {
    assert forall e :: e in OrdEnds(tx) ==> e !in ends;
  }

  lemma {:induction false} NewKnown(s: State, ends: map<End, Tx>, known: map<Hash, Tx>, tx: Tx)
    requires Inv(s, ends, known) && tx.hash !in known && DistinctEnds(tx.messages)
    requires forall h :: h in known ==> OrdEnds(known[h]) !! OrdEnds(tx)
    ensures Inv(s, ends, known[tx.hash := tx])
  {
    var more := known[tx.hash := tx];
    NewWorld(ends, known, tx);
    forall h | h in s.events ensures GraphOk(ends, more, s.events[h]) {
      GraphKnown(ends, known, tx, s.events[h]);
    }
    forall i | 0 <= i < |s.emitted| ensures GraphOk(ends, more, s.emitted[i]) {
      GraphKnown(ends, known, tx, s.emitted[i]);
    }
    NewCovers(ends, known, tx, s.events, s.emitted);
  }

  lemma {:induction false} NewCovers(ends: map<End, Tx>, known: map<Hash, Tx>, tx: Tx, events: map<Hash, Graph>,
                                     emitted: seq<Graph>)
    requires Covers(ends, known, events, emitted) && tx.hash !in known
    requires forall i :: 0 <= i < |emitted| ==> emitted[i].txs.Keys <= known.Keys
    requires Unmatched(ends, tx) == OrdEnds(tx)
    ensures Covers(ends, known[tx.hash := tx], events, emitted)
  {
    assert !InEmitted(emitted, tx.hash);
  }

  lemma {:induction false} KnownListed(txs: seq<Tx>, h: Hash) returns (i: int)
    requires h in KnownOf(txs)
    ensures 0 <= i < |txs| && txs[i] == KnownOf(txs)[h] && txs[i].hash == h && !txs[i].tickTock
  {
    var k := |txs| - 1;
    if !txs[k].tickTock && txs[k].hash == h {
      i := k;
    } else {
      i := KnownListed(txs[..k], h);
    }
  }

  /** The next transaction of a good stream is new and shares no end with the known ones. */
  lemma {:induction false} NextIsNew(txs: seq<Tx>, k: nat)
    requires GoodStream(txs) && k < |txs|
    ensures txs[k].hash !in KnownOf(txs[..k]) && DistinctEnds(txs[k].messages)
    ensures forall h :: h in KnownOf(txs[..k]) ==> OrdEnds(KnownOf(txs[..k])[h]) !! OrdEnds(txs[k])
  {
    var known := KnownOf(txs[..k]);
    if txs[k].hash in known {
      var i := KnownListed(txs[..k], txs[k].hash);
    }
    forall i, j | 0 <= i < j < |txs[k].messages| ensures EndOf(txs[k].messages[i]) != EndOf(txs[k].messages[j]) {
      assert At(txs, k, i) && At(txs, k, j);
    }
    forall h | h in known ensures OrdEnds(known[h]) !! OrdEnds(txs[k]) {
      var i := KnownListed(txs[..k], h);
      NoSharedEnds(txs, i, k);
    }
  }

  lemma {:induction false} NoSharedEnds(txs: seq<Tx>, i: nat, k: nat)
    requires GoodStream(txs) && i < k < |txs|
    ensures OrdEnds(txs[i]) !! OrdEnds(txs[k])
  {
    forall m, w | m in txs[i].messages && w in txs[k].messages ensures EndOf(m) != EndOf(w) {
      var a :| 0 <= a < |txs[i].messages| && txs[i].messages[a] == m;
      var b :| 0 <= b < |txs[k].messages| && txs[k].messages[b] == w;
      assert At(txs, i, a) && At(txs, k, b);
    }
  }

  ghost predicate RunOk(s: State, ends: map<End, Tx>, known: map<Hash, Tx>)
  {
    Inv(s, ends, known) && AllBalanced(s)
  }

  /** One message of a good stream keeps the invariant. */
  lemma {:induction false} MessageStep(txs: seq<Tx>, k: nat, n: nat, s: State, known: map<Hash, Tx>)
    requires GoodStream(txs) && k < |txs| && n < |txs[k].messages| && !txs[k].tickTock
    requires Inv(s, EndsAt(txs, k, n), known) && txs[k].hash in known && known[txs[k].hash] == txs[k]
    ensures Inv(OnMessage(s, txs[k], txs[k].messages[n]), EndsAt(txs, k, n + 1), known)
  {
    var tx, m, ends := txs[k], txs[k].messages[n], EndsAt(txs, k, n);
    NextEnd(txs, k, n);
    if Other(EndOf(m)) in ends {
      NothingElseMatched(txs, k, n);
      CompletingEnd(s, ends, known, tx, m);
    } else if GetMessageType(m) == Ord {
      WaitingEnd(s, ends, known, tx, m);
    }
  }

  lemma {:induction false} MessageRunStep(txs: seq<Tx>, k: nat, n: nat, s: State, known: map<Hash, Tx>)
    requires GoodStream(txs) && k < |txs| && n < |txs[k].messages| && !txs[k].tickTock
    requires RunOk(s, EndsAt(txs, k, n), known) && txs[k].hash in known && known[txs[k].hash] == txs[k]
    ensures RunOk(OnMessage(s, txs[k], txs[k].messages[n]), EndsAt(txs, k, n + 1), known)
  {
    MessageStep(txs, k, n, s, known);
    StepBalanced(s, txs[k], txs[k].messages[n]);
  }

  lemma {:induction false} MessagesStep(txs: seq<Tx>, k: nat, n: nat, s: State, known: map<Hash, Tx>, count: nat)
    requires GoodStream(txs) && k < |txs| && n <= |txs[k].messages| && !txs[k].tickTock
    requires RunOk(s, EndsAt(txs, k, n), known) && txs[k].hash in known && known[txs[k].hash] == txs[k]
    ensures RunOk(OnMessages(s, txs[k], n, count).0, EndsAt(txs, k, |txs[k].messages|), known)
    decreases |txs[k].messages| - n
  {
    if n < |txs[k].messages| {
      var m := txs[k].messages[n];
      MessageRunStep(txs, k, n, s, known);
      MessagesStep(txs, k, n + 1, OnMessage(s, txs[k], m), known, count + if Counts(s, m) then 1 else 0);
    }
  }

  lemma {:induction false} FinishOk(s: State, tx: Tx, count: nat, ends: map<End, Tx>, known: map<Hash, Tx>)
    requires RunOk(s, ends, known)
    ensures RunOk(Finish(s, tx, count), ends, known)
  {
  }

  lemma {:induction false} PrefixGood(txs: seq<Tx>, k: nat)
    requires GoodStream(txs) && k <= |txs|
    ensures GoodStream(txs[..k])
  {
    var p := txs[..k];
    forall i, a, j, b | At(p, i, a) && At(p, j, b) ensures GoodPair(p[i].messages[a], p[j].messages[b], i, a, j, b) {
      assert At(txs, i, a) && At(txs, j, b);
    }
  }

  lemma {:induction false} TxStep(txs: seq<Tx>, k: nat, s: State)
    requires GoodStream(txs) && k < |txs| && !txs[k].tickTock
    requires RunOk(s, EndsOf(txs[..k]), KnownOf(txs[..k]))
    ensures RunOk(ProcessTx(s, txs[k]), EndsAt(txs, k, |txs[k].messages|), KnownOf(txs[..k])[txs[k].hash := txs[k]])
  {
    var known := KnownOf(txs[..k])[txs[k].hash := txs[k]];
    NextIsNew(txs, k);
    NewKnown(s, EndsOf(txs[..k]), KnownOf(txs[..k]), txs[k]);
    MessagesStep(txs, k, 0, s, known, 0);
    var (t, count) := OnMessages(s, txs[k], 0, 0);
    FinishOk(t, txs[k], count, EndsAt(txs, k, |txs[k].messages|), known);
  }

  lemma {:induction false} TickTockStep(s: State, tx: Tx, ends: map<End, Tx>, known: map<Hash, Tx>)
    requires RunOk(s, ends, known) && tx.tickTock
    ensures RunOk(ProcessTx(s, tx), ends, known)
  {
  }

  /** Over every good stream the invariant holds and no merge happens. */
  lemma {:induction false} RunKeepsInvariant(txs: seq<Tx>, tickTocks: bool)
    requires GoodStream(txs)
    ensures RunOk(Run(Init(tickTocks), txs), EndsOf(txs), KnownOf(txs))
  {
    if txs == [] {
      InitOk(tickTocks);
    } else {
      var k := |txs| - 1;
      PrefixGood(txs, k);
      RunKeepsInvariant(txs[..k], tickTocks);
      var s := Run(Init(tickTocks), txs[..k]);
      if txs[k].tickTock {
        TickTockStep(s, txs[k], EndsOf(txs[..k]), KnownOf(txs[..k]));
      } else {
        TxStep(txs, k, s);
      }
    }
  }

  lemma {:induction false} InitOk(tickTocks: bool)
    ensures RunOk(Init(tickTocks), map[], map[])
  {
    assert Pending(map[]) == map[];
  }
}
