/** The scheduler together with its outstanding requests, over every run. */
module SchedulerRuns {
  import opened Scheduler

  /** The state, the scheduled numbers, and three counts of what has happened. */
  datatype World = World(state: State, tasks: seq<Task>, schedules: int, failures: int, successes: int)

  function Init(existing: set<int>): (r: World)
  {
    World(State([], {}, existing, 0, 0, false), [], 0, 0, 0)
  }

  /** A report of the last known number, a wake-up of the scheduling loop, or the answer to a task. */
  datatype Happening = Report(seqno: int) | WakeUp | Answer(task: nat, ok: bool)

  /** Reports never go down. An insert is first accepted, which cannot fail, and then done. A stopped actor receives
      nothing. */
  predicate Enabled(w: World, h: Happening)
  {
    !w.state.stopped &&
    match h
    case Report(n) => w.state.lastKnown <= n
    case WakeUp => true
    case Answer(i, ok) => i < |w.tasks| && w.tasks[i].stage != Indexed && (w.tasks[i].stage == Inserting ==> ok)
  }

  /** The message that answers a task. */
  function Message(t: Task, ok: bool): (e: Event)
    requires t.stage != Indexed
  {
    match t.stage
    case Fetching => Fetched(t.seqno, ok)
    case Parsing => Parsed(t.seqno, ok)
    case Detecting => Detected(t.seqno, ok)
    case Inserting => QueuedToInsert(t.seqno)
    case Accepted => Inserted(t.seqno, ok)
  }

  /** What is left of an answered task. */
  function Left(t: Task, ok: bool): (r: seq<Task>)
  {
    if t.stage == Inserting then [t.(stage := Accepted)]
    else if t.stage == Accepted && ok then [t.(stage := Indexed)]
    else []
  }

  function Step(c: Config, w: World, h: Happening): (r: World)
    requires Enabled(w, h)
  {
    match h
    case Report(n) => w.(state := React(c, w.state, LastKnown(n)).0)
    case WakeUp =>
      var (s, sent) := React(c, w.state, Wake);
      w.(state := s, tasks := w.tasks + sent, schedules := w.schedules + |sent|)
    case Answer(i, ok) =>
      var (s, sent) := React(c, w.state, Message(w.tasks[i], ok));
      World(s, w.tasks[..i] + (Left(w.tasks[i], ok) + sent) + w.tasks[i + 1..], w.schedules,
            w.failures + (if ok then 0 else 1), w.successes + if ok then 1 else 0)
  }

  ghost predicate IsRun(c: Config, existing: set<int>, ws: seq<World>, hs: seq<Happening>)
  {
    && |ws| == |hs| + 1 && ws[0] == Init(existing)
    && forall i :: 0 <= i < |hs| ==> Enabled(ws[i], hs[i]) && ws[i + 1] == Step(c, ws[i], hs[i])
  }

  // ----- the invariant -----

  /** What is counted over the tasks: those of a number, those of a number that count against the limit,
      and the successes still possible. */
  datatype Measure = Of(seqno: int) | BusyOf(seqno: int) | Work

  predicate Busy(stage: Stage)
  {
    stage == Fetching || stage == Parsing || stage == Detecting || stage == Inserting
  }

  function Value(t: Task, m: Measure): (r: nat)
  {
    match m
    case Of(n) => if t.seqno == n then 1 else 0
    case BusyOf(n) => if t.seqno == n && Busy(t.stage) then 1 else 0
    case Work =>
      match t.stage
      case Fetching => 5
      case Parsing => 4
      case Detecting => 3
      case Inserting => 2
      case Accepted => 1
      case Indexed => 0
  }

  function Total(ts: seq<Task>, m: Measure): (r: nat)
  {
    if ts == [] then 0 else Total(ts[..|ts| - 1], m) + Value(ts[|ts| - 1], m)
  }

  function Occurrences(q: seq<int>, n: int): (r: nat)
  {
    if q == [] then 0 else Occurrences(q[..|q| - 1], n) + if q[|q| - 1] == n then 1 else 0
  }

  /** The number is within the bounds, where a bound that is not positive is none, and is not skipped as existing. */
  predicate Due(c: Config, existing: set<int>, n: int)
  {
    && (c.fromSeqno <= 0 || c.fromSeqno <= n) && (c.toSeqno <= 0 || n <= c.toSeqno)
    && (c.force || n !in existing)
  }

  /** And it was reported. */
  predicate Target(c: Config, existing: set<int>, lastKnown: int, n: int)
  {
    1 <= n <= lastKnown && Due(c, existing, n)
  }

  /** The targets up to the last report. */
  function Targets(c: Config, existing: set<int>, lastKnown: int): (r: seq<int>)
  {
    Scan(c, existing, 1, lastKnown)
  }

  /** How often a number is queued or scheduled. */
  function At(w: World, n: int): (r: int)
  {
    Occurrences(w.state.queue, n) + Total(w.tasks, Of(n))
  }

  ghost predicate InOnePlace(c: Config, existing: set<int>, w: World)
  {
    forall n :: At(w, n) == if Target(c, existing, w.state.lastKnown, n) then 1 else 0
  }

  ghost predicate ProcessingIsBusy(w: World)
  {
    forall n :: Total(w.tasks, BusyOf(n)) == if n in w.state.processing then 1 else 0
  }

  ghost predicate Conserved(c: Config, existing: set<int>, w: World)
  {
    InOnePlace(c, existing, w) && ProcessingIsBusy(w)
  }

  ghost predicate Tracked(c: Config, existing: set<int>, w: World)
  {
    && (forall n :: n in w.state.existing <==> n in existing || Task(n, Indexed) in w.tasks)
    && (forall n :: Task(n, Indexed) in w.tasks ==> n <= w.state.lastIndexed)
    && (Task(w.state.lastIndexed, Indexed) in w.tasks || w.state.lastIndexed == 0)
    && w.state.lastKnown >= 0
    && (w.state.stopped ==> PastEnd(c, w.state) && w.state.queue == [])
  }

  predicate Accounted(c: Config, existing: set<int>, w: World)
  {
    && |w.state.processing| <= c.maxTasks
    && w.schedules + |w.state.queue| == |Targets(c, existing, w.state.lastKnown)| + w.failures
    && w.successes + Total(w.tasks, Work) <= 5 * w.schedules
  }

  ghost predicate Inv(c: Config, existing: set<int>, w: World)
  {
    Conserved(c, existing, w) && Tracked(c, existing, w) && Accounted(c, existing, w)
  }

  // ----- sums -----

  lemma {:induction false} TotalConcat(a: seq<Task>, b: seq<Task>, m: Measure)
    ensures Total(a + b, m) == Total(a, m) + Total(b, m)
    decreases |b|
  {
    if b == [] {
      assert a + b == a;
    } else {
      assert (a + b)[..|a + b| - 1] == a + b[..|b| - 1];
      TotalConcat(a, b[..|b| - 1], m);
    }
  }

  lemma {:induction false} TotalOne(t: Task, m: Measure)
    ensures Total([t], m) == Value(t, m)
  {
    assert [t][..0] == [];
  }

  /** Replacing one task. */
  lemma {:induction false} TotalReplace(ts: seq<Task>, i: nat, mid: seq<Task>, m: Measure)
    requires i < |ts|
    ensures Total(ts[..i] + mid + ts[i + 1..], m) == Total(ts, m) - Value(ts[i], m) + Total(mid, m)
  {
    assert ts == ts[..i] + [ts[i]] + ts[i + 1..];
    TotalConcat(ts[..i] + [ts[i]], ts[i + 1..], m);
    TotalConcat(ts[..i], [ts[i]], m);
    TotalOne(ts[i], m);
    TotalConcat(ts[..i] + mid, ts[i + 1..], m);
    TotalConcat(ts[..i], mid, m);
  }

  lemma {:induction false} TotalMember(ts: seq<Task>, t: Task, m: Measure)
    requires t in ts
    ensures Total(ts, m) >= Value(t, m)
  {
    if ts[|ts| - 1] != t { TotalMember(ts[..|ts| - 1], t, m); }
  }

  lemma {:induction false} OccurrencesConcat(a: seq<int>, b: seq<int>, n: int)
    ensures Occurrences(a + b, n) == Occurrences(a, n) + Occurrences(b, n)
    decreases |b|
  {
    if b == [] {
      assert a + b == a;
    } else {
      assert (a + b)[..|a + b| - 1] == a + b[..|b| - 1];
      OccurrencesConcat(a, b[..|b| - 1], n);
    }
  }

  lemma {:induction false} OccursExactly(q: seq<int>, n: int)
    ensures Occurrences(q, n) > 0 <==> n in q
  {
    if q != [] { OccursExactly(q[..|q| - 1], n); }
  }

  // ----- scans -----

  lemma {:induction false} ScanCounts(c: Config, existing: set<int>, lo: int, hi: int, n: int)
    ensures Occurrences(Scan(c, existing, lo, hi), n) == if lo <= n <= hi && Wanted(c, existing, n) then 1 else 0
    decreases hi - lo
  {
    if lo <= hi {
      ScanCounts(c, existing, lo, hi - 1, n);
      var s := Scan(c, existing, lo, hi - 1);
      assert (s + [hi])[..|s|] == s && s + [] == s;
    }
  }

  lemma {:induction false} ScanSplits(c: Config, existing: set<int>, lo: int, mid: int, hi: int)
    requires lo - 1 <= mid <= hi
    ensures Scan(c, existing, lo, hi) == Scan(c, existing, lo, mid) + Scan(c, existing, mid + 1, hi)
    decreases hi - mid
  {
    if mid < hi { ScanSplits(c, existing, lo, mid, hi - 1); }
  }

  /** Only what is known about the scanned numbers matters. */
  lemma {:induction false} ScanDepends(c: Config, e1: set<int>, e2: set<int>, lo: int, hi: int)
    requires forall n :: lo <= n <= hi ==> (n in e1 <==> n in e2)
    ensures Scan(c, e1, lo, hi) == Scan(c, e2, lo, hi)
    decreases hi - lo
  {
    if lo <= hi { ScanDepends(c, e1, e2, lo, hi - 1); }
  }

  // ----- reports -----

  lemma {:induction false} ReportScans(c: Config, existing: set<int>, w: World, n: int)
    requires InOnePlace(c, existing, w) && Tracked(c, existing, w) && w.state.lastKnown <= n
    ensures Scan(c, w.state.existing, w.state.lastKnown + 1, n) == Scan(c, existing, w.state.lastKnown + 1, n)
  {
    forall m | w.state.lastKnown + 1 <= m <= n ensures m in w.state.existing <==> m in existing {
      assert At(w, m) == 0;
      if Task(m, Indexed) in w.tasks { TotalMember(w.tasks, Task(m, Indexed), Of(m)); }
    }
    ScanDepends(c, w.state.existing, existing, w.state.lastKnown + 1, n);
  }

  lemma {:induction false} ReportKeeps(c: Config, existing: set<int>, w: World, n: int)
    requires Inv(c, existing, w) && Enabled(w, Report(n))
    ensures Inv(c, existing, Step(c, w, Report(n)))
  {
    var s := w.state;
    var v := Step(c, w, Report(n));
    if !PastEnd(c, s) {
      ReportScans(c, existing, w, n);
      ScanSplits(c, existing, 1, s.lastKnown, n);
      forall m ensures At(v, m) == if Target(c, existing, n, m) then 1 else 0 {
        var more := Scan(c, existing, s.lastKnown + 1, n);
        ScanCounts(c, existing, s.lastKnown + 1, n, m);
        OccurrencesConcat(s.queue, more, m);
        assert At(w, m) == if Target(c, existing, s.lastKnown, m) then 1 else 0;
      }
    }
  }

  // ----- the scheduling loop -----

  /** No number is queued twice, or queued while in work. */
  ghost predicate Apart(queue: seq<int>, processing: set<int>)
  {
    forall n :: n in queue ==> Occurrences(queue, n) == 1 && n !in processing
  }

  lemma {:induction false} FirstApart(queue: seq<int>, processing: set<int>)
    requires queue != [] && Apart(queue, processing)
    ensures queue[0] !in processing && Apart(queue[1..], processing + {queue[0]})
  {
    var n, rest := queue[0], queue[1..];
    assert queue == [n] + rest;
    forall m | m in rest ensures Occurrences(rest, m) == 1 && m !in processing + {n} {
      assert m in queue;
      OccurrencesConcat([n], rest, m);
      OccursExactly(rest, m);
      assert [n][..0] == [];
    }
  }

  lemma {:induction false} TakenSplits(queue: seq<int>, processing: set<int>, k: nat)
    requires 1 <= k <= |queue|
    ensures processing + Elements(queue[..k]) == processing + {queue[0]} + Elements(queue[1..][..k - 1])
  {
    assert queue[..k] == [queue[0]] + queue[1..][..k - 1];
  }

  /** Numbers that are queued once and not in work fill the free places exactly. */
  lemma {:induction false} TakesRoom(queue: seq<int>, processing: set<int>, maxTasks: int)
    requires |processing| <= maxTasks && Apart(queue, processing)
    ensures var k := Taken(queue, processing, maxTasks);
      && k == (if |queue| <= maxTasks - |processing| then |queue| else maxTasks - |processing|)
      && |processing + Elements(queue[..k])| == |processing| + k
    decreases |queue|
  {
    if queue == [] || |processing| >= maxTasks {
      assert processing + Elements(queue[..0]) == processing;
    } else {
      FirstApart(queue, processing);
      TakesRoom(queue[1..], processing + {queue[0]}, maxTasks);
      TakenSplits(queue, processing, Taken(queue, processing, maxTasks));
    }
  }

  lemma {:induction false} FetchesTotal(q: seq<int>, n: int)
    ensures |Fetches(q)| == |q|
    ensures Total(Fetches(q), Of(n)) == Total(Fetches(q), BusyOf(n)) == Occurrences(q, n)
    ensures Total(Fetches(q), Work) == 5 * |q|
    ensures Task(n, Indexed) !in Fetches(q)
  {
    if q != [] {
      var p, t := q[..|q| - 1], Task(q[|q| - 1], Fetching);
      FetchesTotal(p, n);
      assert (Fetches(p) + [t])[..|p|] == Fetches(p);
    }
  }

  lemma {:induction false} QueueApart(c: Config, existing: set<int>, w: World)
    requires Conserved(c, existing, w)
    ensures Apart(w.state.queue, w.state.processing)
  {
    forall n | n in w.state.queue ensures Occurrences(w.state.queue, n) == 1 && n !in w.state.processing {
      assert At(w, n) <= 1;
      OccursExactly(w.state.queue, n);
      BusyIsOf(w.tasks, n);
      assert Total(w.tasks, BusyOf(n)) == if n in w.state.processing then 1 else 0;
    }
  }

  lemma {:induction false} BusyIsOf(ts: seq<Task>, n: int)
    ensures Total(ts, BusyOf(n)) <= Total(ts, Of(n))
  {
    if ts != [] { BusyIsOf(ts[..|ts| - 1], n); }
  }

  lemma {:induction false} WakeMoves(q: seq<int>, k: nat, ts: seq<Task>, n: int)
    requires k <= |q|
    ensures Occurrences(q[k..], n) + Total(ts + Fetches(q[..k]), Of(n)) == Occurrences(q, n) + Total(ts, Of(n))
    ensures Total(ts + Fetches(q[..k]), BusyOf(n)) == Total(ts, BusyOf(n)) + Occurrences(q[..k], n)
    ensures Total(ts + Fetches(q[..k]), Work) == Total(ts, Work) + 5 * k
    ensures Task(n, Indexed) in ts + Fetches(q[..k]) <==> Task(n, Indexed) in ts
    ensures Occurrences(q[..k], n) <= Occurrences(q, n)
    ensures n in Elements(q[..k]) <==> Occurrences(q[..k], n) > 0
  {
    assert q == q[..k] + q[k..];
    OccurrencesConcat(q[..k], q[k..], n);
    FetchesTotal(q[..k], n);
    TotalConcat(ts, Fetches(q[..k]), Of(n));
    TotalConcat(ts, Fetches(q[..k]), BusyOf(n));
    TotalConcat(ts, Fetches(q[..k]), Work);
    OccursExactly(q[..k], n);
  }

  lemma {:induction false} WakeConserves(c: Config, existing: set<int>, w: World, n: int)
    requires Inv(c, existing, w) && Enabled(w, WakeUp)
    ensures var v := Step(c, w, WakeUp);
      && At(v, n) == At(w, n)
      && (Task(n, Indexed) in v.tasks <==> Task(n, Indexed) in w.tasks)
      && Total(v.tasks, BusyOf(n)) == if n in v.state.processing then 1 else 0
  {
    var q := w.state.queue;
    QueueApart(c, existing, w);
    WakeMoves(q, Taken(q, w.state.processing, c.maxTasks), w.tasks, n);
    OccursExactly(q, n);
    assert Total(w.tasks, BusyOf(n)) == if n in w.state.processing then 1 else 0;
  }

  lemma {:induction false} WakeAccounts(c: Config, existing: set<int>, w: World)
    requires Inv(c, existing, w) && Enabled(w, WakeUp)
    ensures Accounted(c, existing, Step(c, w, WakeUp))
  {
    var q := w.state.queue;
    var k := Taken(q, w.state.processing, c.maxTasks);
    QueueApart(c, existing, w);
    TakesRoom(q, w.state.processing, c.maxTasks);
    FetchesTotal(q[..k], 0);
    WakeMoves(q, k, w.tasks, 0);
  }

  lemma {:induction false} WakeKeeps(c: Config, existing: set<int>, w: World)
    requires Inv(c, existing, w) && Enabled(w, WakeUp)
    ensures Inv(c, existing, Step(c, w, WakeUp))
  {
    var v := Step(c, w, WakeUp);
    WakeAccounts(c, existing, w);
    forall n ensures At(v, n) == At(w, n)
      && (Task(n, Indexed) in v.tasks <==> Task(n, Indexed) in w.tasks)
      && Total(v.tasks, BusyOf(n)) == if n in v.state.processing then 1 else 0 {
      WakeConserves(c, existing, w, n);
    }
  }

  // ----- answers -----

  /** The answer ends the work that counts against the limit. */
  predicate Releases(t: Task, ok: bool)
  {
    t.stage == Inserting || (!ok && t.stage != Accepted)
  }

  function NextStage(s: Stage): (r: Stage)
  {
    match s
    case Fetching => Parsing
    case Parsing => Detecting
    case Detecting => Inserting
    case Inserting => Accepted
    case _ => Indexed
  }

  /** What takes the place of an answered task: nothing after a failure, and otherwise the number in the next stage. */
  function Next(t: Task, ok: bool): (r: seq<Task>)
  {
    if ok then [Task(t.seqno, NextStage(t.stage))] else []
  }

  function Replaced(ts: seq<Task>, i: nat, mid: seq<Task>): (r: seq<Task>)
    requires i < |ts|
  {
    ts[..i] + mid + ts[i + 1..]
  }

  lemma {:induction false} AnswerIs(c: Config, w: World, i: nat, ok: bool)
    requires Enabled(w, Answer(i, ok))
    ensures var t, v := w.tasks[i], Step(c, w, Answer(i, ok));
      && v.tasks == Replaced(w.tasks, i, Next(t, ok))
      && v.state.queue == w.state.queue + (if ok then [] else [t.seqno])
      && v.state.processing == (if Releases(t, ok) || !ok then w.state.processing - {t.seqno} else w.state.processing)
      && v.state.existing == w.state.existing + (if ok && t.stage == Accepted then {t.seqno} else {})
      && v.state.lastKnown == w.state.lastKnown && !v.state.stopped
  {
  }

  lemma {:induction false} NextTotals(ts: seq<Task>, i: nat, ok: bool, n: int)
    requires i < |ts| && ts[i].stage != Indexed
    ensures Total(Replaced(ts, i, Next(ts[i], ok)), Of(n))
      == Total(ts, Of(n)) - if !ok && ts[i].seqno == n then 1 else 0
    ensures Total(Replaced(ts, i, Next(ts[i], ok)), BusyOf(n))
         == Total(ts, BusyOf(n)) - if Releases(ts[i], ok) && ts[i].seqno == n then 1 else 0
    ensures Total(Replaced(ts, i, Next(ts[i], ok)), Work) <= Total(ts, Work) - 1
  {
    var t := Task(ts[i].seqno, NextStage(ts[i].stage));
    TotalReplace(ts, i, Next(ts[i], ok), Of(n));
    TotalReplace(ts, i, Next(ts[i], ok), BusyOf(n));
    TotalReplace(ts, i, Next(ts[i], ok), Work);
    TotalOne(t, Of(n));
    TotalOne(t, BusyOf(n));
    TotalOne(t, Work);
  }

  lemma {:induction false} AnswerMoves(c: Config, w: World, i: nat, ok: bool, n: int)
    requires Enabled(w, Answer(i, ok))
    ensures At(Step(c, w, Answer(i, ok)), n) == At(w, n)
  {
    AnswerIs(c, w, i, ok);
    NextTotals(w.tasks, i, ok, n);
    var back := if ok then [] else [w.tasks[i].seqno];
    OccurrencesConcat(w.state.queue, back, n);
    assert [w.tasks[i].seqno][..0] == [];
  }

  lemma {:induction false} AnswerConserves(c: Config, existing: set<int>, w: World, i: nat, ok: bool)
    requires Conserved(c, existing, w) && Enabled(w, Answer(i, ok))
    ensures Conserved(c, existing, Step(c, w, Answer(i, ok)))
  {
    var v := Step(c, w, Answer(i, ok));
    AnswerIs(c, w, i, ok);
    AnswerFrees(c, existing, w, i);
    forall n ensures At(v, n) == At(w, n) {
      AnswerMoves(c, w, i, ok, n);
    }
    forall n ensures Total(v.tasks, BusyOf(n)) == if n in v.state.processing then 1 else 0 {
      NextTotals(w.tasks, i, ok, n);
      assert Total(w.tasks, BusyOf(n)) == if n in w.state.processing then 1 else 0;
    }
  }

  /** A number accepted for insertion no longer counts against the limit. */
  lemma {:induction false} AnswerFrees(c: Config, existing: set<int>, w: World, i: nat)
    requires Conserved(c, existing, w) && i < |w.tasks|
    ensures !Busy(w.tasks[i].stage) ==> w.tasks[i].seqno !in w.state.processing
  {
    var n := w.tasks[i].seqno;
    assert At(w, n) <= 1 && Total(w.tasks, BusyOf(n)) == if n in w.state.processing then 1 else 0;
    TotalReplace(w.tasks, i, [], Of(n));
    TotalReplace(w.tasks, i, [], BusyOf(n));
    BusyIsOf(w.tasks[..i] + [] + w.tasks[i + 1..], n);
  }

  lemma {:induction false} ReplaceMembers(ts: seq<Task>, i: nat, mid: seq<Task>, t: Task)
    requires i < |ts| && t != ts[i]
    ensures t in Replaced(ts, i, mid) <==> t in ts || t in mid
  {
    assert ts == ts[..i] + [ts[i]] + ts[i + 1..];
  }

  lemma {:induction false} AnswerTracks(c: Config, existing: set<int>, w: World, i: nat, ok: bool)
    requires Tracked(c, existing, w) && Enabled(w, Answer(i, ok))
    ensures Tracked(c, existing, Step(c, w, Answer(i, ok)))
  {
    var t, v := w.tasks[i], Step(c, w, Answer(i, ok));
    var mid := Next(t, ok);
    AnswerIs(c, w, i, ok);
    forall n ensures Task(n, Indexed) in v.tasks <==> Task(n, Indexed) in w.tasks || Task(n, Indexed) in mid {
      ReplaceMembers(w.tasks, i, mid, Task(n, Indexed));
    }
  }

  lemma {:induction false} AnswerKeeps(c: Config, existing: set<int>, w: World, i: nat, ok: bool)
    requires Inv(c, existing, w) && Enabled(w, Answer(i, ok))
    ensures Inv(c, existing, Step(c, w, Answer(i, ok)))
  {
    AnswerConserves(c, existing, w, i, ok);
    AnswerTracks(c, existing, w, i, ok);
    AnswerIs(c, w, i, ok);
    NextTotals(w.tasks, i, ok, 0);
    assert |w.state.processing - {w.tasks[i].seqno}| <= |w.state.processing|;
  }

  // ----- every run -----

  lemma {:induction false} RunKeepsInvariant(c: Config, existing: set<int>, ws: seq<World>, hs: seq<Happening>, k: nat)
    requires c.maxTasks >= 0 && IsRun(c, existing, ws, hs) && k < |ws|
    ensures Inv(c, existing, ws[k])
  {
    if k > 0 {
      RunKeepsInvariant(c, existing, ws, hs, k - 1);
      assert Enabled(ws[k - 1], hs[k - 1]) && ws[k - 1 + 1] == Step(c, ws[k - 1], hs[k - 1]);
      match hs[k - 1]
      case Report(n) => ReportKeeps(c, existing, ws[k - 1], n);
      case WakeUp => WakeKeeps(c, existing, ws[k - 1]);
      case Answer(i, ok) => AnswerKeeps(c, existing, ws[k - 1], i, ok);
    }
  }

  // ----- what has been reported -----

  /** One of the first `k` happenings reported the number or a later one. */
  ghost predicate Reported(hs: seq<Happening>, k: nat, n: int)
    requires k <= |hs|
  {
    exists i :: 0 <= i < k && hs[i].Report? && n <= hs[i].seqno
  }

  lemma {:induction false} ReportedOneMore(hs: seq<Happening>, k: nat, n: int)
    requires k < |hs|
    ensures Reported(hs, k + 1, n) <==> Reported(hs, k, n) || (hs[k].Report? && n <= hs[k].seqno)
  {
    if i :| 0 <= i < k + 1 && hs[i].Report? && n <= hs[i].seqno {
      if i < k { assert Reported(hs, k, n); }
    }
  }

  lemma {:induction false} StepLastKnown(c: Config, w: World, h: Happening)
    requires Enabled(w, h)
    ensures Step(c, w, h).state.lastKnown ==
      if h.Report? && !(c.toSeqno > 0 && w.state.lastKnown > c.toSeqno) then h.seqno else w.state.lastKnown
  {
    if h.Answer? { AnswerIs(c, w, h.task, h.ok); }
  }

  /** The last known number is what was reported, until it is above the upper bound. */
  lemma {:induction false} LastKnownIsReported(c: Config, existing: set<int>, ws: seq<World>, hs: seq<Happening>,
                                               k: nat,
                                               n: int)
    requires IsRun(c, existing, ws, hs) && k < |ws| && n >= 1
    ensures n <= ws[k].state.lastKnown ==> Reported(hs, k, n)
    ensures Reported(hs, k, n) ==> n <= ws[k].state.lastKnown || (c.toSeqno > 0 && ws[k].state.lastKnown > c.toSeqno)
  {
    if k > 0 {
      LastKnownIsReported(c, existing, ws, hs, k - 1, n);
      assert Enabled(ws[k - 1], hs[k - 1]) && ws[k - 1 + 1] == Step(c, ws[k - 1], hs[k - 1]);
      StepLastKnown(c, ws[k - 1], hs[k - 1]);
      ReportedOneMore(hs, k - 1, n);
    }
  }

  /** A target is what has been reported and is due. */
  lemma {:induction false} TargetIsReported(c: Config, existing: set<int>, ws: seq<World>, hs: seq<Happening>, k: nat,
                                            n: int)
    requires IsRun(c, existing, ws, hs) && k < |ws|
    ensures Target(c, existing, ws[k].state.lastKnown, n) <==> n >= 1 && Reported(hs, k, n) && Due(c, existing, n)
  {
    if n >= 1 { LastKnownIsReported(c, existing, ws, hs, k, n); }
  }

  predicate Ascending(q: seq<int>)
  {
    forall i, j :: 0 <= i < j < |q| ==> q[i] < q[j]
  }

  /** These are, in ascending order, the numbers due that are above one number and not above another. */
  ghost predicate DueBetween(c: Config, existing: set<int>, lo: int, hi: int, q: seq<int>)
  {
    Ascending(q) && forall n :: n in q <==> lo < n <= hi && Due(c, existing, n)
  }

  lemma {:induction false} ScanIsDue(c: Config, existing: set<int>, lo: int, hi: int)
    ensures DueBetween(c, existing, lo - 1, hi, Scan(c, existing, lo, hi))
    decreases hi - lo
  {
    if lo <= hi {
      ScanIsDue(c, existing, lo, hi - 1);
      DueOneMore(c, existing, lo - 1, hi, Scan(c, existing, lo, hi - 1));
    }
  }

  lemma {:induction false} DueOneMore(c: Config, existing: set<int>, lo: int, hi: int, q: seq<int>)
    requires lo < hi && DueBetween(c, existing, lo, hi - 1, q)
    ensures DueBetween(c, existing, lo, hi, q + if Due(c, existing, hi) then [hi] else [])
  {
    var more := q + if Due(c, existing, hi) then [hi] else [];
    forall i, j | 0 <= i < j < |more| ensures more[i] < more[j] {
      assert more[i] == q[i] && q[i] in q;
    }
  }

  /** A report queues, behind what is queued, the numbers due above the last known one up to itself, and nothing if
      that is above the upper bound already. */
  lemma {:induction false} ReportQueues(c: Config, s: State, r: int) returns (more: seq<int>)
    ensures GotLastKnown(c, s, r).queue == s.queue + more
    ensures if c.toSeqno > 0 && s.lastKnown > c.toSeqno then more == []
            else DueBetween(c, s.existing, s.lastKnown, r, more)
  {
    more := if PastEnd(c, s) then [] else Scan(c, s.existing, s.lastKnown + 1, r);
    ScanIsDue(c, s.existing, s.lastKnown + 1, r);
  }

  // ----- the results -----

  /** Over every run, a number is in exactly one place if it was reported, is within the bounds and was not skipped,
      and in none otherwise; and it is in `processing` exactly if it is with one of the stages before the insert
      queue. */
  lemma {:induction false} ExactlyOnePlace(c: Config, existing: set<int>, ws: seq<World>, hs: seq<Happening>, k: nat,
                                           n: int)
    requires c.maxTasks >= 0 && IsRun(c, existing, ws, hs) && k < |ws|
    ensures var w := ws[k];
      && Occurrences(w.state.queue, n) + Total(w.tasks, Of(n)) ==
           (if n >= 1 && Reported(hs, k, n) && Due(c, existing, n) then 1 else 0)
      && (n in w.state.processing <==> exists t :: t in w.tasks && t.seqno == n && Busy(t.stage))
  {
    RunKeepsInvariant(c, existing, ws, hs, k);
    var w := ws[k];
    assert At(w, n) == if Target(c, existing, w.state.lastKnown, n) then 1 else 0;
    TargetIsReported(c, existing, ws, hs, k, n);
    assert Total(w.tasks, BusyOf(n)) == if n in w.state.processing then 1 else 0;
    BusyMember(w.tasks, n);
  }

  lemma {:induction false} BusyMember(ts: seq<Task>, n: int)
    ensures Total(ts, BusyOf(n)) > 0 <==> exists t :: t in ts && t.seqno == n && Busy(t.stage)
  {
    if ts != [] {
      var p, last := ts[..|ts| - 1], ts[|ts| - 1];
      BusyMember(p, n);
      assert ts == p + [last];
      if Value(last, BusyOf(n)) > 0 { assert last in ts; }
    }
  }

  /** At most `maxTasks` numbers are in work, each target is scheduled once and once more for each failure, and each
      scheduling has at most five successful answers. */
  lemma {:induction false} WorkBound(c: Config, existing: set<int>, ws: seq<World>, hs: seq<Happening>, k: nat)
    requires c.maxTasks >= 0 && IsRun(c, existing, ws, hs) && k < |ws|
    ensures var w := ws[k];
      && |w.state.processing| <= c.maxTasks
      && w.schedules + |w.state.queue| == |Targets(c, existing, w.state.lastKnown)| + w.failures
      && w.successes <= 5 * (|Targets(c, existing, w.state.lastKnown)| + w.failures)
  {
    RunKeepsInvariant(c, existing, ws, hs, k);
  }

  /** A scheduler that has stopped has scanned everything up to its upper bound and has nothing queued. */
  lemma {:induction false} StoppedHasScanned(c: Config, existing: set<int>, ws: seq<World>, hs: seq<Happening>, k: nat,
                                             n: int)
    requires c.maxTasks >= 0 && IsRun(c, existing, ws, hs) && k < |ws| && ws[k].state.stopped
    ensures ws[k].state.queue == []
    ensures n >= 1 && Due(c, existing, n) ==> exists t :: t in ws[k].tasks && t.seqno == n
  {
    RunKeepsInvariant(c, existing, ws, hs, k);
    var w := ws[k];
    assert At(w, n) == if Target(c, existing, w.state.lastKnown, n) then 1 else 0;
    Member(w.tasks, n);
  }

  lemma {:induction false} Member(ts: seq<Task>, n: int)
    ensures Total(ts, Of(n)) > 0 <==> exists t :: t in ts && t.seqno == n
  {
    if ts != [] {
      var p, last := ts[..|ts| - 1], ts[|ts| - 1];
      Member(p, n);
      assert ts == p + [last];
      if last.seqno == n { assert last in ts; }
    }
  }

  /** The scheduling loop stops the scheduler exactly when reports have passed the upper bound and the queue fits into
      the free places. */
  lemma {:induction false} StopsExactly(c: Config, existing: set<int>, w: World)
    requires Inv(c, existing, w) && Enabled(w, WakeUp)
    ensures Step(c, w, WakeUp).state.stopped <==>
      c.toSeqno > 0 && w.state.lastKnown > c.toSeqno && |w.state.queue| + |w.state.processing| <= c.maxTasks
  {
    QueueApart(c, existing, w);
    TakesRoom(w.state.queue, w.state.processing, c.maxTasks);
  }

  /** Once nothing is queued or outstanding, exactly the targets are indexed, and `existing` has grown by them. */
  lemma {:induction false} DrainedIsIndexed(c: Config, existing: set<int>, ws: seq<World>, hs: seq<Happening>, k: nat,
                                            n: int)
    requires c.maxTasks >= 0 && IsRun(c, existing, ws, hs) && k < |ws|
    requires ws[k].state.queue == [] && forall t :: t in ws[k].tasks ==> t.stage == Indexed
    ensures Task(n, Indexed) in ws[k].tasks <==> n >= 1 && Reported(hs, k, n) && Due(c, existing, n)
    ensures n in ws[k].state.existing <==> n in existing || (n >= 1 && Reported(hs, k, n) && Due(c, existing, n))
  {
    RunKeepsInvariant(c, existing, ws, hs, k);
    TargetIsReported(c, existing, ws, hs, k, n);
    var w := ws[k];
    assert At(w, n) == if Target(c, existing, w.state.lastKnown, n) then 1 else 0;
    Member(w.tasks, n);
  }

  // ----- reports that go down -----

  /** The world after two further reports. */
  function TwoReports(c: Config, w: World, n: int, r: int): (v: World)
  {
    w.(state := GotLastKnown(c, GotLastKnown(c, w.state, n), r))
  }

  /** The number was reported before, and is scanned again by the second report and not skipped. */
  ghost predicate Again(c: Config, w: World, n: int, r: int, m: int)
  {
    n < m <= r && m <= w.state.lastKnown && Due(c, w.state.existing, m)
  }

  ghost predicate ScansAgain(c: Config, w: World, n: int, r: int)
  {
    !PastEnd(c, w.state) && exists m :: Again(c, w, n, r, m)
  }

  /** A report below the last one moves no number. */
  lemma {:induction false} LowerReportMovesNothing(c: Config, w: World, n: int, m: int)
    requires n < w.state.lastKnown
    ensures At(w.(state := GotLastKnown(c, w.state, n)), m) == At(w, m)
  {
    OccurrencesConcat(w.state.queue, Scan(c, w.state.existing, w.state.lastKnown + 1, n), m);
  }

  lemma {:induction false} TwoReportsAdd(c: Config, w: World, n: int, r: int, m: int)
    requires n < w.state.lastKnown && !PastEnd(c, w.state)
    ensures At(TwoReports(c, w, n, r), m) == At(w, m) + if n < m <= r && Wanted(c, w.state.existing, m) then 1 else 0
  {
    var s, t := w.state, GotLastKnown(c, w.state, n);
    assert t.queue == s.queue && t.existing == s.existing && t.lastKnown == n;
    OccurrencesConcat(s.queue, Scan(c, s.existing, n + 1, r), m);
    ScanCounts(c, s.existing, n + 1, r, m);
  }

  /** A number above the last report is queued by the second one as it would be by the first to reach it. */
  lemma {:induction false} AboveLast(c: Config, existing: set<int>, w: World, n: int, r: int, m: int)
    requires Inv(c, existing, w) && 0 <= n < w.state.lastKnown && !PastEnd(c, w.state) && m > w.state.lastKnown
    ensures At(TwoReports(c, w, n, r), m) == if Target(c, existing, r, m) then 1 else 0
  {
    TwoReportsAdd(c, w, n, r, m);
    assert At(w, m) == if Target(c, existing, w.state.lastKnown, m) then 1 else 0;
    if Task(m, Indexed) in w.tasks { TotalMember(w.tasks, Task(m, Indexed), Of(m)); }
  }

  lemma {:induction false} UpToLast(c: Config, existing: set<int>, w: World, n: int, r: int, m: int)
    requires Inv(c, existing, w) && 0 <= n < w.state.lastKnown && !PastEnd(c, w.state) && m <= w.state.lastKnown
    ensures At(TwoReports(c, w, n, r), m)
      == (if Target(c, existing, w.state.lastKnown, m) then 1 else 0) + if Again(c, w, n, r, m) then 1 else 0
  {
    TwoReportsAdd(c, w, n, r, m);
    assert At(w, m) == if Target(c, existing, w.state.lastKnown, m) then 1 else 0;
  }

  /** After a report below the last one and any other, some number is in two places if and only if one that was reported
      before is scanned again and not skipped. */
  lemma {:induction false} LowerReport(c: Config, existing: set<int>, w: World, n: int, r: int)
    requires Inv(c, existing, w) && 0 <= n < w.state.lastKnown
    ensures (exists m :: At(TwoReports(c, w, n, r), m) > 1) <==> ScansAgain(c, w, n, r)
  {
    var v := TwoReports(c, w, n, r);
    if PastEnd(c, w.state) {
      assert v == w;
      forall m ensures At(v, m) <= 1 {
        assert At(w, m) == if Target(c, existing, w.state.lastKnown, m) then 1 else 0;
      }
    } else {
      forall m ensures At(v, m) > 1 <==> Again(c, w, n, r, m) {
        AgainIsTarget(c, existing, w, n, r, m);
        if m > w.state.lastKnown { AboveLast(c, existing, w, n, r, m); } else { UpToLast(c, existing, w, n, r, m); }
      }
    }
  }

  /** Once the last report has been reached again, every number is in exactly one place if and only if none is in two.
      */
  lemma {:induction false} ReportCatchesUp(c: Config, existing: set<int>, w: World, n: int, r: int)
    requires Inv(c, existing, w) && 0 <= n < w.state.lastKnown <= r
    ensures InOnePlace(c, existing, TwoReports(c, w, n, r)) <==> !ScansAgain(c, w, n, r)
  {
    var v := TwoReports(c, w, n, r);
    LowerReport(c, existing, w, n, r);
    if PastEnd(c, w.state) {
      assert v == w;
    } else {
      assert v.state.lastKnown == r;
      forall m ensures At(v, m) == (if Target(c, existing, r, m) then 1 else 0)
        + if Again(c, w, n, r, m) then 1 else 0
      {
        if m > w.state.lastKnown { AboveLast(c, existing, w, n, r, m); } else { UpToLast(c, existing, w, n, r, m); }
      }
    }
  }

  /** What is scanned again and not skipped was a target the first time. */
  lemma {:induction false} AgainIsTarget(c: Config, existing: set<int>, w: World, n: int, r: int, m: int)
    requires Tracked(c, existing, w) && 0 <= n < w.state.lastKnown
    ensures Again(c, w, n, r, m) ==> Target(c, existing, w.state.lastKnown, m)
  {
  }

  /** The reports 1, 0 and 1 again: number 1 is queued twice. */
  lemma {:induction false} ReportedTwice()
    ensures var c := Config(0, 0, false, 1);
      TwoReports(c, Step(c, Init({}), Report(1)), 0, 1).state.queue == [1, 1]
  {
    var c := Config(0, 0, false, 1);
    assert Scan(c, {}, 1, 0) == [];
    assert Scan(c, {}, 1, 1) == [1];
    assert Scan(c, {}, 2, 0) == [];
  }

  /** The existing numbers are those read at the start and those indexed since, and the last indexed one is the
      greatest of the latter. */
  lemma {:induction false} ExistingExactly(c: Config, existing: set<int>, ws: seq<World>, hs: seq<Happening>, k: nat,
                                           n: int)
    requires c.maxTasks >= 0 && IsRun(c, existing, ws, hs) && k < |ws|
    ensures var w := ws[k];
      && (n in w.state.existing <==> n in existing || Task(n, Indexed) in w.tasks)
      && (Task(n, Indexed) in w.tasks ==> n <= w.state.lastIndexed)
      && (w.state.lastIndexed == 0 || Task(w.state.lastIndexed, Indexed) in w.tasks)
  {
    RunKeepsInvariant(c, existing, ws, hs, k);
  }

  /** The scheduling loop takes numbers from the front of the queue, in order, up to the room there is. */
  lemma {:induction false} WakeTakesFront(c: Config, existing: set<int>, w: World)
    requires Inv(c, existing, w) && Enabled(w, WakeUp)
    ensures var q, room := w.state.queue, c.maxTasks - |w.state.processing|;
      var k := if |q| <= room then |q| else room; var v := Step(c, w, WakeUp);
      && v.state.queue == q[k..] && |v.tasks| == |w.tasks| + k && v.tasks[..|w.tasks|] == w.tasks
      && forall i :: 0 <= i < k ==> v.tasks[|w.tasks| + i] == Task(q[i], Fetching)
  {
    var q := w.state.queue;
    QueueApart(c, existing, w);
    TakesRoom(q, w.state.processing, c.maxTasks);
    FetchesAre(q[..Taken(q, w.state.processing, c.maxTasks)]);
  }

  lemma {:induction false} FetchesAre(q: seq<int>)
    ensures |Fetches(q)| == |q| && forall i :: 0 <= i < |q| ==> Fetches(q)[i] == Task(q[i], Fetching)
  {
    if q != [] {
      var n := |q| - 1;
      FetchesAre(q[..n]);
      assert forall i :: 0 <= i < n ==> Fetches(q)[i] == Fetches(q[..n])[i];
    }
  }
}
