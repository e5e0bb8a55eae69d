/** A queue loop without a visited set that returns at the first bad node it takes: when it fails, when it runs dry. */
module QueueLoops {
  import opened Forest
  import opened Cycles

  /** The queue after some turns, or the bad node that the loop has taken. */
  datatype Progress<T> = Going(queue: seq<T>) | Failed(at: T)

  ghost predicate Queued<T>(kids: map<T, seq<T>>, queue: seq<T>)
  {
    forall i :: 0 <= i < |queue| ==> queue[i] in kids
  }

  /** One turn: the first entry goes, its children come last. */
  ghost function Next<T>(kids: map<T, seq<T>>, queue: seq<T>): (r: seq<T>)
    requires Inside(kids) && Queued(kids, queue) && queue != []
    ensures Queued(kids, r)
  {
    queue[1..] + kids[queue[0]]
  }

  ghost function Loop<T>(kids: map<T, seq<T>>, bad: set<T>, queue: seq<T>, n: nat): (r: Progress<T>)
    requires Inside(kids) && Queued(kids, queue)
    decreases n
  {
    if n == 0 || queue == [] then Going(queue)
    else if queue[0] in bad then Failed(queue[0])
    else Loop(kids, bad, Next(kids, queue), n - 1)
  }

  /** The good nodes taken in these turns. */
  ghost function Taken<T>(kids: map<T, seq<T>>, bad: set<T>, queue: seq<T>, n: nat): (r: seq<T>)
    requires Inside(kids) && Queued(kids, queue)
    decreases n
  {
    if n == 0 || queue == [] || queue[0] in bad then []
    else [queue[0]] + Taken(kids, bad, Next(kids, queue), n - 1)
  }

  ghost predicate Over<T>(p: Progress<T>)
  {
    p.Failed? || p.queue == []
  }

  ghost predicate Fails<T(!new)>(kids: map<T, seq<T>>, bad: set<T>, root: T)
    requires Inside(kids) && root in kids
  {
    exists n: nat :: Loop(kids, bad, [root], n).Failed?
  }

  ghost predicate RunsDry<T(!new)>(kids: map<T, seq<T>>, bad: set<T>, root: T)
    requires Inside(kids) && root in kids
  {
    exists n: nat :: Loop(kids, bad, [root], n) == Going([])
  }

  /** A bad node can be reached. */
  ghost predicate BadAhead<T(!new)>(kids: map<T, seq<T>>, bad: set<T>, root: T)
  {
    exists k :: Reaches(kids, root, k) && k in bad
  }

  /** The loop comes to an end: no cycle can be reached, or a bad node can. */
  ghost predicate Stops<T(!new)>(kids: map<T, seq<T>>, bad: set<T>, root: T)
  {
    NoCycleFrom(kids, root) || BadAhead(kids, bad, root)
  }

  // ----- the end is the same however many turns are counted -----

  lemma {:induction false} OverIsFinal<T>(kids: map<T, seq<T>>, bad: set<T>, queue: seq<T>, n: nat, m: nat)
    requires Inside(kids) && Queued(kids, queue)
    requires Over(Loop(kids, bad, queue, n)) && Over(Loop(kids, bad, queue, m))
    ensures Loop(kids, bad, queue, n) == Loop(kids, bad, queue, m)
    ensures Taken(kids, bad, queue, n) == Taken(kids, bad, queue, m)
    decreases n
  {
    if queue != [] && queue[0] !in bad { OverIsFinal(kids, bad, Next(kids, queue), n - 1, m - 1); }
  }

  /** A loop that has not failed after some turns had not failed before. */
  lemma {:induction false} NotYetFailed<T>(kids: map<T, seq<T>>, bad: set<T>, queue: seq<T>, n: nat, m: nat)
    requires Inside(kids) && Queued(kids, queue) && Loop(kids, bad, queue, n) == Going([])
    ensures Loop(kids, bad, queue, m).Going?
    decreases n
  {
    if queue != [] && m > 0 { NotYetFailed(kids, bad, Next(kids, queue), n - 1, m - 1); }
  }

  // ----- failing -----

  lemma {:induction false} FailedIsAhead<T(!new)>(kids: map<T, seq<T>>, bad: set<T>, root: T, queue: seq<T>, n: nat)
    requires Inside(kids) && Queued(kids, queue) && Loop(kids, bad, queue, n).Failed?
    requires forall i :: 0 <= i < |queue| ==> Reaches(kids, root, queue[i])
    ensures BadAhead(kids, bad, root)
    decreases n
  {
    var q := queue[0];
    assert Reaches(kids, root, q);
    if q !in bad {
      var p :| IsWalk(kids, p, root, q);
      var next := Next(kids, queue);
      forall i | 0 <= i < |next| ensures Reaches(kids, root, next[i]) {
        if i < |queue| - 1 {
          assert next[i] == queue[i + 1];
        } else {
          WalkOn(kids, p, root, q, next[i]);
        }
      }
      FailedIsAhead(kids, bad, root, next, n - 1);
    }
  }

  /** The queue is fair: what can be reached from any of its entries is taken after finitely many turns. */
  lemma {:induction false} Fair<T>(kids: map<T, seq<T>>, bad: set<T>, queue: seq<T>, j: nat, p: seq<T>, k: T)
    returns (n: nat)
    requires Inside(kids) && Queued(kids, queue) && j < |queue| && IsWalk(kids, p, queue[j], k) && k in bad
    ensures Loop(kids, bad, queue, n).Failed?
    decreases |p|, j
  {
    if queue[0] in bad {
      n := 1;
    } else {
      var next, m := Next(kids, queue), 0;
      if j > 0 {
        assert next[j - 1] == queue[j];
        m := Fair(kids, bad, next, j - 1, p, k);
      } else {
        assert Step(kids, p[0], p[0 + 1]);
        var i :| 0 <= i < |kids[queue[0]]| && kids[queue[0]][i] == p[1];
        WalkPart(kids, p, queue[0], k, 1, |p| - 1);
        assert next[|queue| - 1 + i] == p[1];
        m := Fair(kids, bad, next, |queue| - 1 + i, p[1..|p|], k);
      }
      n := m + 1;
    }
  }

  /** The loop fails if and only if a bad node can be reached. */
  lemma {:induction false} FailsExactly<T(!new)>(kids: map<T, seq<T>>, bad: set<T>, root: T)
    requires Inside(kids) && root in kids
    ensures Fails(kids, bad, root) <==> BadAhead(kids, bad, root)
  {
    if Fails(kids, bad, root) {
      var n: nat :| Loop(kids, bad, [root], n).Failed?;
      assert IsWalk(kids, [root], root, root);
      FailedIsAhead(kids, bad, root, [root], n);
    }
    if BadAhead(kids, bad, root) {
      var k :| Reaches(kids, root, k) && k in bad;
      var p :| IsWalk(kids, p, root, k);
      var n := Fair(kids, bad, [root], 0, p, k);
    }
  }

  lemma {:induction false} FailsAtFirstChild<T>(kids: map<T, seq<T>>, bad: set<T>, root: T)
    requires Inside(kids) && root in kids && root !in bad && kids[root] != [] && kids[root][0] in bad
    ensures Loop(kids, bad, [root], 2) == Failed(kids[root][0])
  {
    assert Next(kids, [root]) == kids[root];
    assert Loop(kids, bad, [root], 2) == Loop(kids, bad, kids[root], 1);
  }

  // ----- running dry -----

  /** With ranks the loop ends within the length of the unfolding. */
  lemma {:induction false} RankedIsOver<T>(kids: map<T, seq<T>>, bad: set<T>, s: Shape<T>, queue: seq<T>)
    requires Inside(kids) && Ranked(s) && PartOf(s, kids) && Below(s, s.top, queue)
    ensures Queued(kids, queue) && Over(Loop(kids, bad, queue, |Unfold(s, s.top, queue)|))
    decreases |Unfold(s, s.top, queue)|
  {
    if queue != [] {
      UnfoldStep(s, queue);
      RankedIsOver(kids, bad, s, queue[1..] + s.kids[queue[0]]);
    }
  }

  /** A loop that has run dry has ranks for all that it took. */
  lemma {:induction false} DryIsRanked<T>(kids: map<T, seq<T>>, bad: set<T>, queue: seq<T>, n: nat)
    returns (s: Shape<T>)
    requires Inside(kids) && Queued(kids, queue) && Loop(kids, bad, queue, n) == Going([])
    ensures Ranked(s) && PartOf(s, kids) && forall i :: 0 <= i < |queue| ==> queue[i] in s.kids
    decreases n
  {
    if queue == [] {
      s := Shape(map[], map[], map[], 0);
    } else {
      var next := Next(kids, queue);
      var t := DryIsRanked(kids, bad, next, n - 1);
      forall i | 0 <= i < |kids[queue[0]]| ensures kids[queue[0]][i] in t.kids {
        assert next[|queue| - 1 + i] == kids[queue[0]][i];
      }
      s := OnTop(t, kids, queue[0]);
      forall i | 0 < i < |queue| ensures queue[i] in s.kids {
        assert next[i - 1] == queue[i];
      }
    }
  }

  /** The loop runs dry if and only if neither a cycle nor a bad node can be reached. */
  lemma {:induction false} DryExactly<T(!new)>(kids: map<T, seq<T>>, bad: set<T>, root: T)
    requires Inside(kids) && root in kids
    ensures RunsDry(kids, bad, root) <==> NoCycleFrom(kids, root) && !BadAhead(kids, bad, root)
  {
    FailsExactly(kids, bad, root);
    if RunsDry(kids, bad, root) {
      var n: nat :| Loop(kids, bad, [root], n) == Going([]);
      var s := DryIsRanked(kids, bad, [root], n);
      assert [root][0] in s.kids;
      RankedHasNoCycle(s, kids, root);
      forall m: nat ensures Loop(kids, bad, [root], m).Going? {
        NotYetFailed(kids, bad, [root], n, m);
      }
    }
    if NoCycleFrom(kids, root) && !BadAhead(kids, bad, root) {
      var n := EndFound(kids, bad, root);
      assert !Loop(kids, bad, [root], n).Failed?;
    }
  }

  /** The number of turns after which a loop that comes to an end has done so. */
  lemma {:induction false} EndFound<T(!new)>(kids: map<T, seq<T>>, bad: set<T>, root: T) returns (n: nat)
    requires Inside(kids) && root in kids && Stops(kids, bad, root)
    ensures Over(Loop(kids, bad, [root], n))
  {
    if NoCycleFrom(kids, root) {
      assert IsWalk(kids, [root], root, root);
      var s := RankBelow(kids, root, [root], root);
      RankedIsOver(kids, bad, s, [root]);
      n := |Unfold(s, s.top, [root])|;
    } else {
      FailsExactly(kids, bad, root);
      n :| Loop(kids, bad, [root], n).Failed?;
    }
  }

  /** The loop comes to an end if and only if no cycle can be reached or a bad node can. */
  lemma {:induction false} StopsExactly<T(!new)>(kids: map<T, seq<T>>, bad: set<T>, root: T)
    requires Inside(kids) && root in kids
    ensures Fails(kids, bad, root) || RunsDry(kids, bad, root) <==> Stops(kids, bad, root)
  {
    FailsExactly(kids, bad, root);
    DryExactly(kids, bad, root);
  }

  // ----- the order -----

  /** The nodes in the order in which a loop that runs dry takes them. */
  ghost function Order<T(!new)>(kids: map<T, seq<T>>, bad: set<T>, root: T): (r: seq<T>)
    requires Inside(kids) && root in kids && RunsDry(kids, bad, root)
  {
    var n: nat :| Loop(kids, bad, [root], n) == Going([]);
    Taken(kids, bad, [root], n)
  }

  /** The bad node at which a loop fails. */
  ghost function Culprit<T(!new)>(kids: map<T, seq<T>>, bad: set<T>, root: T): (r: T)
    requires Inside(kids) && root in kids && Fails(kids, bad, root)
  {
    var n: nat :| Loop(kids, bad, [root], n).Failed?;
    Loop(kids, bad, [root], n).at
  }

  lemma {:induction false} EndIs<T(!new)>(kids: map<T, seq<T>>, bad: set<T>, root: T, n: nat)
    requires Inside(kids) && root in kids && Over(Loop(kids, bad, [root], n))
    ensures Loop(kids, bad, [root], n).Failed? ==>
      Fails(kids, bad, root) && Culprit(kids, bad, root) == Loop(kids, bad, [root], n).at
    ensures Loop(kids, bad, [root], n).Going? ==>
      RunsDry(kids, bad, root) && Order(kids, bad, root) == Taken(kids, bad, [root], n)
  {
    if Loop(kids, bad, [root], n).Failed? {
      var m: nat :| Loop(kids, bad, [root], m).Failed? && Culprit(kids, bad, root) == Loop(kids, bad, [root], m).at;
      OverIsFinal(kids, bad, [root], n, m);
    } else {
      var m: nat :| Loop(kids, bad, [root], m) == Going([]) && Order(kids, bad, root) == Taken(kids, bad, [root], m);
      OverIsFinal(kids, bad, [root], n, m);
    }
  }

  lemma {:induction false} TakenByRank<T>(kids: map<T, seq<T>>, bad: set<T>, s: Shape<T>, queue: seq<T>, n: nat)
    requires Inside(kids) && Ranked(s) && PartOf(s, kids) && Below(s, s.top, queue) && Queued(kids, queue)
    requires Loop(kids, bad, queue, n) == Going([])
    ensures Taken(kids, bad, queue, n) == QueueOrder(s, queue)
    decreases n
  {
    if queue != [] {
      UnfoldStep(s, queue);
      TakenByRank(kids, bad, s, queue[1..] + s.kids[queue[0]], n - 1);
    }
  }

  lemma {:induction false} OrderStarts<T(!new)>(kids: map<T, seq<T>>, bad: set<T>, root: T)
    requires Inside(kids) && root in kids && RunsDry(kids, bad, root)
    ensures Order(kids, bad, root) != [] && Order(kids, bad, root)[0] == root
  {
  }

  /** Where there are ranks, the order is that of the ranked queue. */
  lemma {:induction false} OrderByRank<T(!new)>(kids: map<T, seq<T>>, bad: set<T>, s: Shape<T>, root: T)
    requires Inside(kids) && Ranked(s) && PartOf(s, kids) && root in s.kids && RunsDry(kids, bad, root)
    ensures Order(kids, bad, root) == QueueOrder(s, [root])
  {
    var n: nat :| Loop(kids, bad, [root], n) == Going([]) && Order(kids, bad, root) == Taken(kids, bad, [root], n);
    TakenByRank(kids, bad, s, [root], n);
  }

  lemma {:induction false} TakenInside<T>(kids: map<T, seq<T>>, bad: set<T>, queue: seq<T>, n: nat)
    requires Inside(kids) && Queued(kids, queue)
    ensures forall i :: 0 <= i < |Taken(kids, bad, queue, n)| ==>
      Taken(kids, bad, queue, n)[i] in kids && Taken(kids, bad, queue, n)[i] !in bad
    decreases n
  {
    if n > 0 && queue != [] && queue[0] !in bad { TakenInside(kids, bad, Next(kids, queue), n - 1); }
  }

  // ----- a loop in progress -----

  /** With `left` turns to go the loop has taken `done` and will end as it should after `n` turns from the root. */
  ghost predicate OnTrack<T(!new)>(kids: map<T, seq<T>>, bad: set<T>, root: T, n: nat, queue: seq<T>, left: nat,
                                   done: seq<T>)
    requires Inside(kids) && root in kids
  {
    && Queued(kids, queue) && Over(Loop(kids, bad, [root], n))
    && Loop(kids, bad, queue, left) == Loop(kids, bad, [root], n)
    && done + Taken(kids, bad, queue, left) == Taken(kids, bad, [root], n)
  }

  lemma {:induction false} StartTrack<T(!new)>(kids: map<T, seq<T>>, bad: set<T>, root: T) returns (n: nat)
    requires Inside(kids) && root in kids && Stops(kids, bad, root)
    ensures OnTrack(kids, bad, root, n, [root], n, [])
  {
    n := EndFound(kids, bad, root);
    assert [] + Taken(kids, bad, [root], n) == Taken(kids, bad, [root], n);
  }

  lemma {:induction false} TrackTurn<T(!new)>(kids: map<T, seq<T>>, bad: set<T>, root: T, n: nat, queue: seq<T>,
                                              left: nat, done: seq<T>)
    requires Inside(kids) && root in kids && OnTrack(kids, bad, root, n, queue, left, done) && queue != []
    ensures queue[0] in kids && left > 0
    ensures queue[0] !in bad ==> OnTrack(kids, bad, root, n, queue[1..] + kids[queue[0]], left - 1, done + [queue[0]])
    ensures queue[0] in bad ==> Fails(kids, bad, root) && Culprit(kids, bad, root) == queue[0]
  {
    if queue[0] in bad {
      EndIs(kids, bad, root, n);
    } else {
      var rest := Taken(kids, bad, Next(kids, queue), left - 1);
      assert done + ([queue[0]] + rest) == (done + [queue[0]]) + rest;
    }
  }

  lemma {:induction false} TrackEnd<T(!new)>(kids: map<T, seq<T>>, bad: set<T>, root: T, n: nat, left: nat,
                                             done: seq<T>)
    requires Inside(kids) && root in kids && OnTrack(kids, bad, root, n, [], left, done)
    ensures RunsDry(kids, bad, root) && Order(kids, bad, root) == done
  {
    EndIs(kids, bad, root, n);
    assert done + [] == done;
  }
}
