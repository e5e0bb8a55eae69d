/** The block scheduler: numbers wait in a queue, are fetched, parsed, searched and inserted, and queued again on a
    failure. */
module Scheduler {
  import opened Basics

  /** A bound that is not positive is no bound. */
  datatype Config = Config(fromSeqno: int, toSeqno: int, force: bool, maxTasks: int)

  datatype State = State(queue: seq<int>, processing: set<int>, existing: set<int>,
                         lastKnown: int, lastIndexed: int, stopped: bool)

  /** Where a scheduled number is: with the fetcher, the parser, the interface detector or the insert manager, there
      accepted into the insert queue, or inserted. */
  datatype Stage = Fetching | Parsing | Detecting | Inserting | Accepted | Indexed

  /** As a request: the number is handed to that stage. */
  datatype Task = Task(seqno: int, stage: Stage)

  /** What reaches the scheduler's mailbox. */
  datatype Event =
    | LastKnown(report: int)
    | Wake
    | Fetched(seqno: int, ok: bool)
    | Parsed(seqno: int, ok: bool)
    | Detected(seqno: int, ok: bool)
    | QueuedToInsert(seqno: int)
    | Inserted(seqno: int, ok: bool)

  predicate InRange(c: Config, n: int)
  {
    (c.fromSeqno <= 0 || n >= c.fromSeqno) && (c.toSeqno <= 0 || n <= c.toSeqno)
  }

  predicate Wanted(c: Config, existing: set<int>, n: int)
  {
    (c.force || n !in existing) && InRange(c, n)
  }

  /** The wanted numbers from `lo` to `hi`, in order. */
  function Scan(c: Config, existing: set<int>, lo: int, hi: int): (r: seq<int>)
    decreases hi - lo
  {
    if hi < lo then []
    else Scan(c, existing, lo, hi - 1) + if Wanted(c, existing, hi) then [hi] else []
  }

  predicate PastEnd(c: Config, s: State)
  {
    c.toSeqno > 0 && s.lastKnown > c.toSeqno
  }

  function GotLastKnown(c: Config, s: State, n: int): (r: State)
  {
    if PastEnd(c, s) then s
    else s.(queue := s.queue + Scan(c, s.existing, s.lastKnown + 1, n), lastKnown := n)
  }

  function Reschedule(s: State, n: int): (r: State)
  {
    s.(processing := s.processing - {n}, queue := s.queue + [n])
  }

  /** How many numbers the scheduling loop takes off the queue. */
  function Taken(queue: seq<int>, processing: set<int>, maxTasks: int): (k: nat)
    ensures k <= |queue|
  {
    if queue == [] || |processing| >= maxTasks then 0
    else 1 + Taken(queue[1..], processing + {queue[0]}, maxTasks)
  }

  function Elements(q: seq<int>): (r: set<int>)
  {
    set n | n in q
  }

  function ScheduleNext(c: Config, s: State): (r: State)
  {
    var k := Taken(s.queue, s.processing, c.maxTasks);
    var t := s.(queue := s.queue[k..], processing := s.processing + Elements(s.queue[..k]));
    t.(stopped := s.stopped || (PastEnd(c, t) && t.queue == []))
  }

  /** A request to fetch each of the numbers, in order. */
  function Fetches(q: seq<int>): (r: seq<Task>)
  {
    if q == [] then [] else Fetches(q[..|q| - 1]) + [Task(q[|q| - 1], Fetching)]
  }

  lemma {:induction false} OneMore(q: seq<int>, k: nat)
    requires k < |q|
    ensures Elements(q[..k + 1]) == Elements(q[..k]) + {q[k]}
    ensures Fetches(q[..k + 1]) == Fetches(q[..k]) + [Task(q[k], Fetching)]
    ensures q[k..][1..] == q[k + 1..] && q[k..][0] == q[k]
  {
    assert q[..k + 1] == q[..k] + [q[k]];
    assert q[..k + 1][..k] == q[..k];
  }

  function MarkIndexed(s: State, n: int): (r: State)
  {
    s.(existing := s.existing + {n}, lastIndexed := if n > s.lastIndexed then n else s.lastIndexed)
  }

  /** The new state and the requests sent on an event. */
  function React(c: Config, s: State, e: Event): (r: (State, seq<Task>))
  {
    match e
    case LastKnown(n) => (GotLastKnown(c, s, n), [])
    case Wake => (ScheduleNext(c, s), Fetches(s.queue[..Taken(s.queue, s.processing, c.maxTasks)]))
    case Fetched(n, ok) => if ok then (s, [Task(n, Parsing)]) else (Reschedule(s, n), [])
    case Parsed(n, ok) => if ok then (s, [Task(n, Detecting)]) else (Reschedule(s, n), [])
    case Detected(n, ok) => if ok then (s, [Task(n, Inserting)]) else (Reschedule(s, n), [])
    case QueuedToInsert(n) => (s.(processing := s.processing - {n}), [])
    case Inserted(n, ok) => if ok then (MarkIndexed(s, n), []) else (Reschedule(s, n), [])
  }

  class IndexScheduler {
    const config: Config
    var queued: seq<int>
    var processing: set<int>
    var existing: set<int>
    var lastKnown: int
    var lastIndexed: int
    var stopped: bool

    ghost function View(): (s: State)
      reads this
    {
      State(queued, processing, existing, lastKnown, lastIndexed, stopped)
    }

    constructor (config: Config)
      ensures this.config == config && View() == State([], {}, {}, 0, 0, false)
    {
      this.config := config;
      queued, processing, existing, lastKnown, lastIndexed, stopped := [], {}, {}, 0, 0, false;
    }

    method GotExistingSeqnos(found: Option<seq<int>>)
      modifies this`existing
      ensures existing == old(existing) + if found.Some? then Elements(found.value) else {}
    {
      if found.None? { return; }
      var values := found.value;
      for i := 0 to |values|
        invariant existing == old(existing) + Elements(values[..i])
      {
        existing := existing + {values[i]};
        assert values[..i + 1] == values[..i] + [values[i]];
      }
      assert values[..|values|] == values;
    }

    method GotLastKnownSeqno(report: int)
      modifies this`queued, this`lastKnown
      ensures View() == GotLastKnown(config, old(View()), report)
    {
      if config.toSeqno > 0 && lastKnown > config.toSeqno { return; }
      var seqno := lastKnown + 1;
      while seqno <= report
        invariant seqno <= report + 1 || seqno == lastKnown + 1
        invariant queued == old(queued) + Scan(config, existing, lastKnown + 1, seqno - 1)
        invariant lastKnown == old(lastKnown)
      {
        if !config.force && seqno in existing {
        } else if (config.fromSeqno <= 0 || seqno >= config.fromSeqno)
          && (config.toSeqno <= 0 || seqno <= config.toSeqno)
        {
          queued := queued + [seqno];
        }
        seqno := seqno + 1;
      }
      lastKnown := report;
    }

    method RescheduleSeqno(n: int)
      modifies this`queued, this`processing
      ensures View() == Reschedule(old(View()), n)
    {
      processing := processing - {n};
      queued := queued + [n];
    }

    method SeqnoQueuedToInsert(n: int)
      modifies this`processing
      ensures View() == old(View()).(processing := old(processing) - {n})
    {
      processing := processing - {n};
    }

    method SeqnoInserted(n: int)
      modifies this`existing, this`lastIndexed
      ensures View() == MarkIndexed(old(View()), n)
    {
      existing := existing + {n};
      if n > lastIndexed { lastIndexed := n; }
    }

    /** The scheduling loop. */
    method ScheduleQueued() returns (sent: seq<Task>)
      modifies this`queued, this`processing
      ensures var k := Taken(old(queued), old(processing), config.maxTasks);
        && queued == old(queued)[k..]
        && processing == old(processing) + Elements(old(queued)[..k])
        && sent == Fetches(old(queued)[..k])
    {
      sent := [];
      ghost var all, k := queued, 0;
      while queued != [] && |processing| < config.maxTasks
        invariant k <= |all| && queued == all[k..]
        invariant processing == old(processing) + Elements(all[..k])
        invariant sent == Fetches(all[..k])
        invariant k + Taken(queued, processing, config.maxTasks) == Taken(all, old(processing), config.maxTasks)
        decreases |queued|
      {
        var seqno := queued[0];
        OneMore(all, k);
        queued := queued[1..];
        processing := processing + {seqno};
        sent := sent + [Task(seqno, Fetching)];
        k := k + 1;
      }
    }

    method ScheduleNextSeqnos() returns (sent: seq<Task>)
      modifies this`queued, this`processing, this`stopped
      ensures (View(), sent) == React(config, old(View()), Wake)
    {
      sent := ScheduleQueued();
      if config.toSeqno > 0 && lastKnown > config.toSeqno && queued == [] {
        stopped := true;
      }
    }

    /** One message of the mailbox. */
    method Receive(e: Event) returns (sent: seq<Task>)
      modifies this
      ensures (View(), sent) == React(config, old(View()), e)
    {
      sent := [];
      match e
      case LastKnown(n) => GotLastKnownSeqno(n);
      case Wake => sent := ScheduleNextSeqnos();
      case Fetched(n, ok) => if ok { sent := [Task(n, Parsing)]; } else { RescheduleSeqno(n); }
      case Parsed(n, ok) => if ok { sent := [Task(n, Detecting)]; } else { RescheduleSeqno(n); }
      case Detected(n, ok) => if ok { sent := [Task(n, Inserting)]; } else { RescheduleSeqno(n); }
      case QueuedToInsert(n) => SeqnoQueuedToInsert(n);
      case Inserted(n, ok) => if ok { SeqnoInserted(n); } else { RescheduleSeqno(n); }
    }
  }
}
