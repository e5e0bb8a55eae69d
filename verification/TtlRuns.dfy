/** The tracker over every run of messages and expiry passes. */
module TtlRuns {
  import opened Basics
  import opened TtlTracker

  /** A message that announces a trace, a message that names a further account of one, or an expiry pass. */
  datatype Happening =
    | Trace(key: string, data: Option<TraceData>, now: int, clock: Clock)
    | Reference(account: string, key: string)
    | Pass(now: int, undeleted: set<string>, failing: set<string>)

  ghost predicate IsStep(c: Config, t: Tracker, h: Happening, u: Tracker)
  {
    match h
    case Trace(key, data, now, clock) => u == OnTrace(c, t, key, data, now, clock)
    case Reference(account, key) => u == OnReference(t, account, key)
    case Pass(now, undeleted, failing) => IsPass(t, u, now, undeleted, failing)
  }

  ghost predicate IsRun(c: Config, sets: Index, ts: seq<Tracker>, hs: seq<Happening>)
  {
    && |ts| == |hs| + 1 && ts[0] == Tracker(map[], map[], map[], sets)
    && forall i :: 0 <= i < |hs| ==> IsStep(c, ts[i], hs[i], ts[i + 1])
  }

  predicate HasRoot(h: Happening)
  {
    h.Trace? && h.data.Some? && h.data.value.rootKey in h.data.value.nodes
  }

  function Root(h: Happening): (r: Node)
    requires HasRoot(h)
  {
    h.data.value.nodes[h.data.value.rootKey]
  }

  /** Every message of a trace has the same root account. */
  ghost predicate RootsFixed(hs: seq<Happening>, account: string -> string)
  {
    forall i :: 0 <= i < |hs| && HasRoot(hs[i]) ==> Root(hs[i]).account == account(hs[i].key)
  }

  /** Every synthetic trace has an expiry and is tracked for its root account only, and no account has an empty set. */
  ghost predicate Agrees(t: Tracker, account: string -> string)
  {
    forall a :: a in t.synthetic ==>
      && t.synthetic[a] != {}
      && forall x :: x in t.synthetic[a] ==> x in t.latest && account(x) == a
  }

  lemma {:induction false} AgreesIsTidy(t: Tracker, account: string -> string)
    requires Agrees(t, account)
    ensures Tidy(t.synthetic)
  {
  }

  lemma {:induction false} TraceAgrees(c: Config, t: Tracker, h: Happening, account: string -> string)
    requires Agrees(t, account) && h.Trace? && (HasRoot(h) ==> Root(h).account == account(h.key))
    ensures Agrees(OnTrace(c, t, h.key, h.data, h.now, h.clock), account)
  {
  }

  lemma {:induction false} PassAgrees(t: Tracker, u: Tracker, h: Happening, account: string -> string)
    requires Agrees(t, account) && h.Pass? && IsPass(t, u, h.now, h.undeleted, h.failing)
    ensures Agrees(u, account)
  {
    AgreesIsTidy(t, account);
    PassIsWithout(t, u, h.now, h.undeleted, h.failing);
  }

  /** In every reachable state the synthetic traces agree with the expiries. */
  lemma {:induction false} RunAgrees(c: Config, sets: Index, ts: seq<Tracker>, hs: seq<Happening>,
                                     account: string -> string, k: nat)
    requires IsRun(c, sets, ts, hs) && RootsFixed(hs, account) && k < |ts|
    ensures Agrees(ts[k], account) && Tidy(ts[k].synthetic)
  {
    if k > 0 {
      RunAgrees(c, sets, ts, hs, account, k - 1);
      assert IsStep(c, ts[k - 1], hs[k - 1], ts[k - 1 + 1]);
      match hs[k - 1]
      case Trace(_, _, _, _) => TraceAgrees(c, ts[k - 1], hs[k - 1], account);
      case Reference(_, _) =>
      case Pass(_, _, _) => PassAgrees(ts[k - 1], ts[k], hs[k - 1], account);
    }
    AgreesIsTidy(ts[k], account);
  }

  // ----- what a message changes -----

  /** The message announces the trace with an emulated root on the account. */
  ghost predicate Announces(h: Happening, x: string, a: string)
  {
    HasRoot(h) && h.key == x && Root(h).emulated && Root(h).account == a
  }

  /** The message brings a real root on the account. */
  ghost predicate Clears(h: Happening, a: string)
  {
    HasRoot(h) && !Root(h).emulated && Root(h).account == a
  }

  /** After a message, an account tracks what it did before, and also the trace if the message announces it there, and
      nothing if the message brings a real root there. */
  lemma {:induction false} MessageTracks(c: Config, t: Tracker, h: Happening, a: string, x: string)
    requires h.Trace?
    ensures x in Members(OnTrace(c, t, h.key, h.data, h.now, h.clock).synthetic, a) <==>
      !Clears(h, a) && (x in Members(t.synthetic, a) || Announces(h, x, a))
  {
  }

  /** The lifetime is the default without data, the synthetic one if the root is emulated, the completed one if no
      node is, and the default otherwise; a real root also expires what its account tracks, and nothing else changes.
      */
  lemma {:induction false} MessageExpiry(c: Config, t: Tracker, h: Happening)
    requires h.Trace?
    ensures var u := OnTrace(c, t, h.key, h.data, h.now, h.clock);
      && h.key in u.latest
      && (h.data.None? ==> u.latest[h.key] == h.now + c.defaultTtl)
      && (HasRoot(h) && Root(h).emulated ==> u.latest[h.key] == h.now + c.syntheticTtl)
      && (h.data.Some? && (forall k :: k in h.data.value.nodes ==> !h.data.value.nodes[k].emulated) ==>
            u.latest[h.key] == h.now + c.completedTtl)
      && (h.data.Some? && !(HasRoot(h) && Root(h).emulated) &&
          (exists k :: k in h.data.value.nodes && h.data.value.nodes[k].emulated) ==>
            u.latest[h.key] == h.now + c.defaultTtl)
    ensures forall x :: x != h.key ==>
      var u := OnTrace(c, t, h.key, h.data, h.now, h.clock);
      if HasRoot(h) && !Root(h).emulated && x in Members(t.synthetic, Root(h).account)
      then x in u.latest && u.latest[x] == h.clock(x)
      else (x in u.latest <==> x in t.latest) && (x in t.latest ==> u.latest[x] == t.latest[x])
  {
  }

  /** The message names the account for the trace: as that of a node, or on its own. */
  ghost predicate Names(h: Happening, a: string, x: string)
  {
    || (h.Trace? && h.key == x && h.data.Some? &&
        exists k :: k in h.data.value.nodes && h.data.value.nodes[k].account == a)
    || (h.Reference? && h.key == x && h.account == a)
  }

  lemma {:induction false} StepCollects(c: Config, t: Tracker, h: Happening, u: Tracker, a: string, x: string)
    requires IsStep(c, t, h, u)
    ensures a in Members(u.collected, x) <==>
      Names(h, a, x) || (a in Members(t.collected, x) && !(h.Pass? && x in Expired(t.latest, h.now)))
  {
    if h.Trace? && h.data.Some? { AccountsAre(h.data.value.nodes, a); }
  }

  lemma {:induction false} AccountsAre(nodes: map<string, Node>, a: string)
    ensures a in Accounts(nodes) <==> exists k :: k in nodes && nodes[k].account == a
  {
  }

  // ----- since -----

  /** A message named the account for the trace, and the trace has not expired in a pass since. */
  ghost predicate NamedSince(ts: seq<Tracker>, hs: seq<Happening>, a: string, x: string, i: nat, j: nat)
    requires j <= |hs| <= |ts|
  {
    i < j && Names(hs[i], a, x) && forall k :: i < k < j ==> !(hs[k].Pass? && x in Expired(ts[k].latest, hs[k].now))
  }

  ghost predicate Named(ts: seq<Tracker>, hs: seq<Happening>, a: string, x: string, j: nat)
    requires j <= |hs| <= |ts|
  {
    exists i :: NamedSince(ts, hs, a, x, i, j)
  }

  lemma {:induction false} NamedOneMore(ts: seq<Tracker>, hs: seq<Happening>, a: string, x: string, n: nat)
    requires n < |hs| <= |ts|
    ensures Named(ts, hs, a, x, n + 1) <==>
      Names(hs[n], a, x) || (Named(ts, hs, a, x, n) && !(hs[n].Pass? && x in Expired(ts[n].latest, hs[n].now)))
  {
    var m := n + 1;
    if i: nat :| NamedSince(ts, hs, a, x, i, m) {
      if i < n { assert NamedSince(ts, hs, a, x, i, n); }
    }
    if Names(hs[n], a, x) {
      assert NamedSince(ts, hs, a, x, n, m);
    } else if !(hs[n].Pass? && x in Expired(ts[n].latest, hs[n].now)) {
      forall i | NamedSince(ts, hs, a, x, i, n) ensures NamedSince(ts, hs, a, x, i, m) {
      }
    }
  }

  /** In every state of every run, the addresses collected for a trace are those of all its nodes and those named for
      it, since it last expired in a pass. */
  lemma {:induction false} AddressesExactly(c: Config, sets: Index, ts: seq<Tracker>, hs: seq<Happening>, j: nat,
                                            a: string, x: string)
    requires IsRun(c, sets, ts, hs) && j < |ts|
    ensures a in Members(ts[j].collected, x) <==> Named(ts, hs, a, x, j)
  {
    if j > 0 {
      AddressesExactly(c, sets, ts, hs, j - 1, a, x);
      assert IsStep(c, ts[j - 1], hs[j - 1], ts[j - 1 + 1]);
      StepCollects(c, ts[j - 1], hs[j - 1], ts[j], a, x);
      NamedOneMore(ts, hs, a, x, j - 1);
    }
  }

  /** The pass takes the trace, which has expired, from the account. */
  ghost predicate Takes(t: Tracker, h: Happening, u: Tracker, a: string, x: string)
  {
    h.Pass? && x in Expired(t.latest, h.now) && x !in Members(u.synthetic, a)
  }

  lemma {:induction false} StepTracks(c: Config, t: Tracker, h: Happening, u: Tracker, a: string, x: string)
    requires IsStep(c, t, h, u)
    ensures x in Members(u.synthetic, a) <==>
      Announces(h, x, a) || (x in Members(t.synthetic, a) && !Clears(h, a) && !Takes(t, h, u, a, x))
  {
    match h
    case Trace(_, _, _, _) => MessageTracks(c, t, h, a, x);
    case Reference(_, _) =>
    case Pass(now, undeleted, failing) =>
      PassForgetsExactly(t, u, now, undeleted, failing, x);
      assert x in Members(u.synthetic, a) <==> a in Holders(u.synthetic, x);
      assert x in Members(t.synthetic, a) <==> a in Holders(t.synthetic, x);
  }

  /** A message announced the trace for the account, and since then no real root came there and no pass took it. */
  ghost predicate AnnouncedSince(ts: seq<Tracker>, hs: seq<Happening>, a: string, x: string, i: nat, j: nat)
    requires j <= |hs| && |ts| == |hs| + 1
  {
    i < j && Announces(hs[i], x, a) && forall k :: i < k < j ==> !Loses(ts, hs, a, x, k)
  }

  ghost predicate Loses(ts: seq<Tracker>, hs: seq<Happening>, a: string, x: string, k: int)
    requires 0 <= k < |hs| && |ts| == |hs| + 1
  {
    Clears(hs[k], a) || Takes(ts[k], hs[k], ts[k + 1], a, x)
  }

  ghost predicate StillAnnounced(ts: seq<Tracker>, hs: seq<Happening>, a: string, x: string, j: nat)
    requires j <= |hs| && |ts| == |hs| + 1
  {
    exists i :: AnnouncedSince(ts, hs, a, x, i, j)
  }

  lemma {:induction false} AnnouncedOneMore(ts: seq<Tracker>, hs: seq<Happening>, a: string, x: string, n: nat)
    requires n < |hs| && |ts| == |hs| + 1
    ensures StillAnnounced(ts, hs, a, x, n + 1) <==>
      Announces(hs[n], x, a) || (StillAnnounced(ts, hs, a, x, n) && !Loses(ts, hs, a, x, n))
  {
    var m := n + 1;
    if i: nat :| AnnouncedSince(ts, hs, a, x, i, m) {
      if i < n { assert AnnouncedSince(ts, hs, a, x, i, n); }
    }
    if Announces(hs[n], x, a) {
      assert AnnouncedSince(ts, hs, a, x, n, m);
    } else if !Loses(ts, hs, a, x, n) {
      forall i | AnnouncedSince(ts, hs, a, x, i, n) ensures AnnouncedSince(ts, hs, a, x, i, m) {
      }
    }
  }

  /** In every state of every run, an account tracks a trace if and only if a message announced the trace with an
      emulated root on the account, and since then no real root came there and no pass took it. */
  lemma {:induction false} TrackedExactly(c: Config, sets: Index, ts: seq<Tracker>, hs: seq<Happening>, j: nat,
                                          a: string, x: string)
    requires IsRun(c, sets, ts, hs) && j < |ts|
    ensures x in Members(ts[j].synthetic, a) <==> StillAnnounced(ts, hs, a, x, j)
  {
    if j > 0 {
      TrackedExactly(c, sets, ts, hs, j - 1, a, x);
      assert IsStep(c, ts[j - 1], hs[j - 1], ts[j - 1 + 1]);
      StepTracks(c, ts[j - 1], hs[j - 1], ts[j], a, x);
      AnnouncedOneMore(ts, hs, a, x, j - 1);
    }
  }

  // ----- supersession -----

  /** The trace is tracked for no account and expires at `time`. */
  ghost predicate Doomed(t: Tracker, x: string, time: int)
  {
    x in t.latest && t.latest[x] == time && Holders(t.synthetic, x) == {}
  }

  /** Nothing in the step gives `x` another expiry or takes it before `time`. */
  predicate Leaves(h: Happening, x: string, time: int)
  {
    match h
    case Trace(key, _, _, _) => key != x
    case Reference(_, _) => true
    case Pass(now, _, _) => now < time
  }

  lemma {:induction false} StaysDoomed(c: Config, t: Tracker, h: Happening, u: Tracker, x: string, time: int)
    requires IsStep(c, t, h, u) && Tidy(t.synthetic) && Doomed(t, x, time) && Leaves(h, x, time)
    ensures Doomed(u, x, time)
  {
    forall a | a in t.synthetic ensures x !in t.synthetic[a] {
      assert a !in Holders(t.synthetic, x);
    }
    if h.Pass? { PassIsWithout(t, u, h.now, h.undeleted, h.failing); }
  }

  /** A trace with a real root leaves no synthetic trace of its account, dooms the others, and keeps its own expiry. */
  lemma {:induction false} RealRootSupersedes(c: Config, t: Tracker, h: Happening, account: string -> string)
    requires Agrees(t, account) && HasRoot(h) && !Root(h).emulated && Root(h).account == account(h.key)
    ensures var u := OnTrace(c, t, h.key, h.data, h.now, h.clock);
      && Root(h).account !in u.synthetic
      && u.latest[h.key] == h.now + Ttl(c, h.data)
      && forall x :: x in Members(t.synthetic, Root(h).account) && x != h.key ==> Doomed(u, x, h.clock(x))
  {
  }

  /** A trace announced for an account, and still tracked there when a real root comes, is among the expired ones of the
      first pass at a later time, whatever else happens, unless a newer message for it comes first. */
  lemma {:induction false} SupersededExpires(c: Config, sets: Index, ts: seq<Tracker>, hs: seq<Happening>,
                                             account: string -> string, a: nat, i: nat, j: nat, x: string)
    requires IsRun(c, sets, ts, hs) && RootsFixed(hs, account) && a < i < j < |hs|
    requires HasRoot(hs[i]) && !Root(hs[i]).emulated && x != hs[i].key && Announces(hs[a], x, Root(hs[i]).account)
    requires forall k :: a < k < i ==> !Clears(hs[k], Root(hs[i]).account)
    requires forall k :: a < k < i && hs[k].Pass? ==> x !in Expired(ts[k].latest, hs[k].now)
    requires forall k :: i < k < j ==> Leaves(hs[k], x, hs[i].clock(x))
    requires hs[j].Pass? && hs[j].now >= hs[i].clock(x)
    ensures x in Expired(ts[j].latest, hs[j].now) && x !in ts[j + 1].latest
  {
    assert AnnouncedSince(ts, hs, Root(hs[i]).account, x, a, i);
    TrackedExactly(c, sets, ts, hs, i, Root(hs[i]).account, x);
    DoomedUntil(c, sets, ts, hs, account, i, j, x);
    assert IsStep(c, ts[j], hs[j], ts[j + 1]);
  }

  lemma {:induction false} DoomedUntil(c: Config, sets: Index, ts: seq<Tracker>, hs: seq<Happening>,
                                       account: string -> string,
                                       i: nat, j: nat, x: string)
    requires IsRun(c, sets, ts, hs) && RootsFixed(hs, account) && i < j < |ts|
    requires HasRoot(hs[i]) && !Root(hs[i]).emulated
    requires x in Members(ts[i].synthetic, Root(hs[i]).account) && x != hs[i].key
    requires forall k :: i < k < j ==> Leaves(hs[k], x, hs[i].clock(x))
    ensures Doomed(ts[j], x, hs[i].clock(x))
    decreases j
  {
    RunAgrees(c, sets, ts, hs, account, j - 1);
    assert IsStep(c, ts[j - 1], hs[j - 1], ts[j - 1 + 1]);
    if j == i + 1 {
      RealRootSupersedes(c, ts[i], hs[i], account);
    } else {
      DoomedUntil(c, sets, ts, hs, account, i, j - 1, x);
      StaysDoomed(c, ts[j - 1], hs[j - 1], ts[j], x, hs[i].clock(x));
    }
  }

  // ----- two roots -----

  /** A message with one emulated node, of this account. */
  function Emulated(key: string, account: string, now: int, clock: Clock): (h: Happening)
  {
    Trace(key, Some(TraceData("0", map["0" := Node(account, true)])), now, clock)
  }

  /** A trace announced under two root accounts and then expired: it has no expiry left and is still tracked. */
  lemma {:induction false} SecondRootIsKept(c: Config, ts: seq<Tracker>, hs: seq<Happening>, a: string, b: string,
                                            x: string, clock: Clock)
    requires a != b && |hs| == 3 && IsRun(c, map[], ts, hs)
    requires hs[0] == Emulated(x, a, 0, clock) && hs[1] == Emulated(x, b, 0, clock)
    requires hs[2].Pass? && hs[2].now >= c.syntheticTtl
    ensures x !in ts[3].latest && Holders(ts[3].synthetic, x) != {}
  {
    assert IsStep(c, ts[0], hs[0], ts[0 + 1]) && IsStep(c, ts[1], hs[1], ts[1 + 1]);
    assert IsStep(c, ts[2], hs[2], ts[2 + 1]);
    assert a in Holders(ts[2].synthetic, x) && b in Holders(ts[2].synthetic, x);
    PassForgetsExactly(ts[2], ts[3], hs[2].now, hs[2].undeleted, hs[2].failing, x);
  }

  lemma {:induction false} OneAnnounced(c: Config, t: Tracker, a: string, x: string, clock: Clock)
    requires t.collected.Keys <= {x}
    ensures var u := OnTrace(c, t, x, Emulated(x, a, 0, clock).data, 0, clock);
      && u.latest == t.latest[x := c.syntheticTtl] && u.synthetic == Track(t.synthetic, a, x)
      && u.collected.Keys == {x} && u.sets == t.sets
  {
  }

  lemma {:induction false} TrackedTwice(a: string, b: string, x: string)
    requires a != b
    ensures Track(Track(map[], a, x), b, x) == map[a := {x}, b := {x}]
  {
    var none: Index := map[];
    assert Members(none, a) + {x} == {x};
    assert Members(Track(none, a, x), b) + {x} == {x};
  }

  lemma {:induction false} FirstRootForgotten(t: Tracker, a: string, b: string, x: string, time: int)
    requires a != b && t.latest == map[x := time] && t.synthetic == map[a := {x}, b := {x}]
    requires t.collected.Keys == {x} && t.sets == map[]
    ensures IsPass(t, Tracker(map[], map[b := {x}], map[], map[]), time, {}, {})
  {
    assert map[b := {x}] == Drop(t.synthetic, a, x) && a in Holders(t.synthetic, x);
    DroppedOne(t.synthetic, a, x);
    assert Expired(t.latest, time) == {x};
  }

  /** There is such a run, for any trace and any two accounts. */
  lemma {:induction false} TwoRootsRun(c: Config, a: string, b: string, x: string, clock: Clock)
    returns (ts: seq<Tracker>, hs: seq<Happening>)
    requires a != b
    ensures |hs| == 3 && IsRun(c, map[], ts, hs)
    ensures hs[0] == Emulated(x, a, 0, clock) && hs[1] == Emulated(x, b, 0, clock)
    ensures hs[2] == Pass(c.syntheticTtl, {}, {})
  {
    var first, second, pass := Emulated(x, a, 0, clock), Emulated(x, b, 0, clock), Pass(c.syntheticTtl, {}, {});
    var start := Tracker(map[], map[], map[], map[]);
    var one := OnTrace(c, start, x, first.data, 0, clock);
    var two := OnTrace(c, one, x, second.data, 0, clock);
    var end := Tracker(map[], map[b := {x}], map[], map[]);
    OneAnnounced(c, start, a, x, clock);
    OneAnnounced(c, one, b, x, clock);
    TrackedTwice(a, b, x);
    FirstRootForgotten(two, a, b, x, c.syntheticTtl);
    ts, hs := [start, one, two, end], [first, second, pass];
    assert IsStep(c, start, first, one) && IsStep(c, one, second, two) && IsStep(c, two, pass, end);
  }

  // ----- collected addresses -----

  /** Addresses have been collected for the trace, and no pass will clean up after it: it has no expiry. */
  ghost predicate Stray(t: Tracker, x: string)
  {
    x in t.collected && x !in t.latest
  }

  /** The message gives the trace an expiry: it announces it, or supersedes it. */
  ghost predicate Gives(t: Tracker, h: Happening, x: string)
  {
    h.Trace? && (h.key == x || (HasRoot(h) && !Root(h).emulated && x in Members(t.synthetic, Root(h).account)))
  }

  /** The message names an account for a trace without an expiry. */
  ghost predicate TooLate(t: Tracker, h: Happening, x: string)
  {
    h.Reference? && h.key == x && x !in t.latest
  }

  lemma {:induction false} StepStrays(c: Config, t: Tracker, h: Happening, u: Tracker, x: string)
    requires IsStep(c, t, h, u)
    ensures Stray(u, x) <==> (Stray(t, x) && !Gives(t, h, x)) || TooLate(t, h, x)
  {
  }

  /** A message that named an account came too late, and none has given the trace an expiry since. */
  ghost predicate LateSince(ts: seq<Tracker>, hs: seq<Happening>, x: string, i: nat, j: nat)
    requires j <= |hs| <= |ts|
  {
    i < j && TooLate(ts[i], hs[i], x) && forall k :: i < k < j ==> !Gives(ts[k], hs[k], x)
  }

  ghost predicate Late(ts: seq<Tracker>, hs: seq<Happening>, x: string, j: nat)
    requires j <= |hs| <= |ts|
  {
    exists i :: LateSince(ts, hs, x, i, j)
  }

  lemma {:induction false} LateOneMore(ts: seq<Tracker>, hs: seq<Happening>, x: string, n: nat)
    requires n < |hs| <= |ts|
    ensures Late(ts, hs, x, n + 1) <==> (Late(ts, hs, x, n) && !Gives(ts[n], hs[n], x)) || TooLate(ts[n], hs[n], x)
  {
    var m := n + 1;
    if i: nat :| LateSince(ts, hs, x, i, m) {
      if i < n { assert LateSince(ts, hs, x, i, n); }
    }
    if TooLate(ts[n], hs[n], x) {
      assert LateSince(ts, hs, x, n, m);
    } else if !Gives(ts[n], hs[n], x) {
      forall i | LateSince(ts, hs, x, i, n) ensures LateSince(ts, hs, x, i, m) {
      }
    }
  }

  /** In every state of every run, a trace with collected addresses has no expiry if and only if some message that
      named an account for it came while it had none, and no message has given it one since. */
  lemma {:induction false} CollectedExactly(c: Config, sets: Index, ts: seq<Tracker>, hs: seq<Happening>, j: nat,
                                            x: string)
    requires IsRun(c, sets, ts, hs) && j < |ts|
    ensures Stray(ts[j], x) <==> Late(ts, hs, x, j)
  {
    if j > 0 {
      CollectedExactly(c, sets, ts, hs, j - 1, x);
      assert IsStep(c, ts[j - 1], hs[j - 1], ts[j - 1 + 1]);
      StepStrays(c, ts[j - 1], hs[j - 1], ts[j], x);
      LateOneMore(ts, hs, x, j - 1);
    }
  }

  /** With a fixed root account per trace, only a message that announces a stray trace gives it an expiry. */
  lemma {:induction false} OnlyAnnouncedGives(t: Tracker, h: Happening, x: string, account: string -> string)
    requires Agrees(t, account) && x !in t.latest
    ensures Gives(t, h, x) <==> h.Trace? && h.key == x
  {
  }

  /** So its addresses are never removed, whatever passes follow, until a message announces it. */
  lemma {:induction false} StrayStays(c: Config, sets: Index, ts: seq<Tracker>, hs: seq<Happening>,
                                      account: string -> string,
                                      i: nat, j: nat, x: string)
    requires IsRun(c, sets, ts, hs) && RootsFixed(hs, account) && i <= j < |ts|
    requires Stray(ts[i], x)
    requires forall k :: i <= k < j && hs[k].Trace? ==> hs[k].key != x
    ensures Stray(ts[j], x)
    decreases j
  {
    if i < j {
      StrayStays(c, sets, ts, hs, account, i, j - 1, x);
      RunAgrees(c, sets, ts, hs, account, j - 1);
      assert IsStep(c, ts[j - 1], hs[j - 1], ts[j - 1 + 1]);
      OnlyAnnouncedGives(ts[j - 1], hs[j - 1], x, account);
      StepStrays(c, ts[j - 1], hs[j - 1], ts[j], x);
    }
  }

  /** Every trace with collected addresses has an expiry in every state if and only if no message that names an
      account comes too late. */
  lemma {:induction false} NoneStray(c: Config, sets: Index, ts: seq<Tracker>, hs: seq<Happening>, n: nat)
    requires IsRun(c, sets, ts, hs) && n < |ts|
    ensures (forall j, x :: 0 <= j <= n ==> !Stray(ts[j], x)) <==>
      (forall i, x :: 0 <= i < n ==> !TooLate(ts[i], hs[i], x))
  {
    forall j, x | 0 <= j <= n ensures Stray(ts[j], x) <==> Late(ts, hs, x, j) {
      CollectedExactly(c, sets, ts, hs, j, x);
    }
    if i, x :| 0 <= i < n && TooLate(ts[i], hs[i], x) {
      assert LateSince(ts, hs, x, i, i + 1);
      assert Stray(ts[i + 1], x);
    }
  }

  // ----- the indexes -----

  /** The member has the key somewhere in it. */
  ghost predicate Mentions(member: string, key: string)
  {
    exists before, after :: member == before + key + after
  }

  lemma {:induction false} ContainsExactly(member: string, key: string)
    ensures Contains(member, key) <==> Mentions(member, key)
  {
    if Contains(member, key) {
      var i :| 0 <= i <= |member| && ContainsAt(member, key, i);
      assert member == member[..i] + key + member[i + |key|..];
    }
    if before, after :| member == before + key + after {
      assert ContainsAt(member, key, |before|);
    }
  }

  /** The trace has expired and was deleted, the address was collected for it, and the set is that of the address or its
      action set. */
  ghost predicate Concerns(t: Tracker, now: int, undeleted: set<string>, name: string, key: string, address: string)
  {
    && key in t.latest && t.latest[key] <= now && key !in undeleted && address in Members(t.collected, key)
    && (name == address || name == "_aai:" + address)
  }

  lemma {:induction false} HitExactly(t: Tracker, now: int, undeleted: set<string>, name: string, member: string)
    ensures Hit(t, now, undeleted, name, member) <==>
      exists key, address :: Concerns(t, now, undeleted, name, key, address) && Mentions(member, key)
  {
    if Hit(t, now, undeleted, name, member) {
      if k :| Stale(t, now, undeleted, name, k) && Contains(member, k) {
        ContainsExactly(member, k);
        assert Concerns(t, now, undeleted, name, k, name);
      } else {
        var a := name[|ACTIONS|..];
        var k :| Stale(t, now, undeleted, a, k) && Contains(member, k);
        ContainsExactly(member, k);
        assert name == ACTIONS + a;
        assert Concerns(t, now, undeleted, name, k, a);
      }
    }
    if key, address :| Concerns(t, now, undeleted, name, key, address) && Mentions(member, key) {
      ContainsExactly(member, key);
      assert Stale(t, now, undeleted, address, key);
      if name == ACTIONS + address { assert name[..|ACTIONS|] == ACTIONS && name[|ACTIONS|..] == address; }
    }
  }

  /** After a pass a set has lost exactly the members that mention a deleted key of its address, or of the address
      that it is the action set of, unless the store failed on that set. */
  lemma {:induction false} PassCleansExactly(t: Tracker, u: Tracker, now: int, undeleted: set<string>,
                                             failing: set<string>, name: string, member: string)
    requires IsPass(t, u, now, undeleted, failing)
    ensures member in Members(u.sets, name) <==>
      && member in Members(t.sets, name)
      && (name in failing ||
          !exists key, address :: Concerns(t, now, undeleted, name, key, address) && Mentions(member, key))
  {
    HitExactly(t, now, undeleted, name, member);
  }

  /** And nothing is left of an expired key in the trackers. */
  lemma {:induction false} PassForgetsKeys(t: Tracker, u: Tracker, now: int, undeleted: set<string>,
                                           failing: set<string>,
                                           x: string)
    requires IsPass(t, u, now, undeleted, failing)
    ensures x in u.latest <==> x in t.latest && t.latest[x] > now
    ensures x in u.latest ==> u.latest[x] == t.latest[x]
    ensures x in u.collected <==> x in t.collected && !(x in t.latest && t.latest[x] <= now)
    ensures x in u.collected ==> u.collected[x] == t.collected[x]
  {
  }
}
