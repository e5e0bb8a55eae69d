/** A min-heap of expiries with lazy deletion beside a map of the latest ones, proved against the plain map. */
module ExpiryHeap {

  datatype KeyExpiry = KeyExpiry(key: string, time: int)

  function Parent(i: int): (p: int)
    requires i > 0
    ensures 0 <= p < i
  {
    (i - 1) / 2
  }

  /** Of the first `n` entries, every one is at or after its parent. */
  ghost predicate IsHeap(h: seq<KeyExpiry>, n: int)
    requires n <= |h|
  {
    forall i :: 0 < i < n ==> h[Parent(i)].time <= h[i].time
  }

  /** As `IsHeap`, but entry `j` may be before its parent. */
  ghost predicate HeapExceptUp(h: seq<KeyExpiry>, j: int)
  {
    && (forall i :: 0 < i < |h| && i != j ==> h[Parent(i)].time <= h[i].time)
    && (forall i :: 0 < i < |h| && Parent(i) == j && 0 < j ==> h[Parent(j)].time <= h[i].time)
  }

  /** As `IsHeap`, but entry `j` may be after its children. */
  ghost predicate HeapExceptDown(h: seq<KeyExpiry>, j: int, n: int)
    requires n <= |h|
  {
    && (forall i :: 0 < i < n && Parent(i) != j ==> h[Parent(i)].time <= h[i].time)
    && (forall i :: 0 < i < n && Parent(i) == j && 0 < j ==> h[Parent(j)].time <= h[i].time)
  }

  function Swap(h: seq<KeyExpiry>, i: int, j: int): (r: seq<KeyExpiry>)
    requires 0 <= i < |h| && 0 <= j < |h|
    ensures |r| == |h| && multiset(r) == multiset(h)
  {
    h[i := h[j]][j := h[i]]
  }

  lemma {:induction false} SwapKeepsTail(h: seq<KeyExpiry>, i: int, j: int, n: int)
    requires 0 <= i < n <= |h| && 0 <= j < n
    ensures Swap(h, i, j)[n..] == h[n..]
  {
  }

  lemma {:induction false} TopIsEarliest(h: seq<KeyExpiry>, i: int)
    requires IsHeap(h, |h|) && 0 <= i < |h|
    ensures h[0].time <= h[i].time
  {
    if i > 0 { TopIsEarliest(h, Parent(i)); }
  }

  lemma {:induction false} TopIsEarliestOfAll(h: seq<KeyExpiry>, e: KeyExpiry)
    requires IsHeap(h, |h|) && e in h
    ensures h[0].time <= e.time
  {
    var i :| 0 <= i < |h| && h[i] == e;
    TopIsEarliest(h, i);
  }

  lemma {:induction false} UpStep(h: seq<KeyExpiry>, j: int)
    requires 0 < j < |h| && HeapExceptUp(h, j) && h[j].time < h[Parent(j)].time
    ensures HeapExceptUp(Swap(h, Parent(j), j), Parent(j))
  {
    var p, g := Parent(j), Swap(h, Parent(j), j);
    forall i | 0 < i < |h| && i != p ensures g[Parent(i)].time <= g[i].time {
      if Parent(i) == p || i == j { assert h[p].time <= h[i].time || i == j; }
    }
    forall i | 0 < i < |h| && Parent(i) == p && 0 < p ensures g[Parent(p)].time <= g[i].time {
      assert h[Parent(p)].time <= h[p].time;
      if i != j { assert h[p].time <= h[i].time; }
    }
  }

  lemma {:induction false} DownStep(h: seq<KeyExpiry>, i: int, j: int, n: int)
    requires 0 <= i < j < n <= |h| && Parent(j) == i && HeapExceptDown(h, i, n) && h[j].time < h[i].time
    requires forall c :: 0 < c < n && Parent(c) == i ==> h[j].time <= h[c].time
    ensures HeapExceptDown(Swap(h, i, j), j, n)
  {
    var g := Swap(h, i, j);
    forall c | 0 < c < n && Parent(c) != j ensures g[Parent(c)].time <= g[c].time {
      if c == i { assert h[Parent(i)].time <= h[j].time; }
    }
    forall c | 0 < c < n && Parent(c) == j ensures g[Parent(j)].time <= g[c].time {
      assert h[Parent(c)].time <= h[c].time;
    }
  }

  lemma {:induction false} DownDone(h: seq<KeyExpiry>, i: int, n: int)
    requires 0 <= i && n <= |h| && HeapExceptDown(h, i, n)
    requires forall c :: 0 < c < n && Parent(c) == i ==> h[i].time <= h[c].time
    ensures IsHeap(h, n)
  {
  }

  /** The smaller of the children of `i` is before both. */
  lemma {:induction false} SmallerChild(h: seq<KeyExpiry>, i: int, j: int, n: int)
    requires 0 <= i && n <= |h| && 2 * i + 1 <= j < n && j <= 2 * i + 2
    requires h[j].time <= h[2 * i + 1].time && (2 * i + 2 < n ==> h[j].time <= h[2 * i + 2].time)
    ensures Parent(j) == i && forall c :: 0 < c < n && Parent(c) == i ==> h[j].time <= h[c].time
  {
    forall c | 0 < c < n && Parent(c) == i ensures h[j].time <= h[c].time {
      assert c == 2 * i + 1 || c == 2 * i + 2;
    }
  }

  // ----- the plain map -----

  ghost predicate Distinct(ks: seq<string>)
  {
    forall i, j :: 0 <= i < j < |ks| ==> ks[i] != ks[j]
  }

  /** `ks` lists exactly the keys that expire by `now`, each once, earliest first. */
  ghost predicate ListsExpired(latest: map<string, int>, now: int, ks: seq<string>)
  {
    && (forall k :: k in ks <==> k in latest && latest[k] <= now)
    && Distinct(ks)
    && (forall i, j :: 0 <= i < j < |ks| ==> latest[ks[i]] <= latest[ks[j]])
  }

  function Remaining(latest: map<string, int>, now: int): (r: map<string, int>)
  {
    map k | k in latest && latest[k] > now :: latest[k]
  }

  class ExpiryTracker {
    var heap: seq<KeyExpiry>
    var latest: map<string, int>

    /** The latest expiry of every key is still in the heap. */
    ghost predicate Valid()
      reads this
    {
      && IsHeap(heap, |heap|)
      && forall k :: k in latest ==> KeyExpiry(k, latest[k]) in heap
    }

    constructor ()
      ensures Valid() && latest == map[]
    {
      heap, latest := [], map[];
    }

    method Up()
      requires heap != [] && HeapExceptUp(heap, |heap| - 1)
      modifies this`heap
      ensures IsHeap(heap, |heap|) && multiset(heap) == multiset(old(heap))
    {
      var j := |heap| - 1;
      while j > 0 && heap[j].time < heap[Parent(j)].time
        invariant 0 <= j < |heap|
        invariant HeapExceptUp(heap, j) && multiset(heap) == multiset(old(heap))
      {
        var i := Parent(j);
        UpStep(heap, j);
        heap := Swap(heap, i, j);
        j := i;
      }
    }

    method Push(e: KeyExpiry)
      requires IsHeap(heap, |heap|)
      modifies this`heap
      ensures IsHeap(heap, |heap|) && multiset(heap) == multiset(old(heap)) + multiset{e}
    {
      heap := heap + [e];
      Up();
    }

    method Down(n: nat)
      requires n <= |heap| && HeapExceptDown(heap, 0, n)
      modifies this`heap
      ensures |heap| == |old(heap)| && IsHeap(heap, n)
      ensures multiset(heap) == multiset(old(heap)) && heap[n..] == old(heap)[n..]
    {
      var i := 0;
      while 2 * i + 1 < n
        invariant 0 <= i && |heap| == |old(heap)|
        invariant HeapExceptDown(heap, i, n)
        invariant multiset(heap) == multiset(old(heap)) && heap[n..] == old(heap)[n..]
        decreases n - i
      {
        var j := 2 * i + 1;
        if j + 1 < n && heap[j + 1].time < heap[j].time { j := j + 1; }
        SmallerChild(heap, i, j, n);
        if heap[j].time >= heap[i].time {
          DownDone(heap, i, n);
          return;
        }
        DownStep(heap, i, j, n);
        SwapKeepsTail(heap, i, j, n);
        heap := Swap(heap, i, j);
        i := j;
      }
      DownDone(heap, i, n);
    }

    method Pop() returns (e: KeyExpiry)
      requires heap != [] && IsHeap(heap, |heap|)
      modifies this`heap
      ensures IsHeap(heap, |heap|) && e == old(heap)[0]
      ensures multiset(heap) + multiset{e} == multiset(old(heap))
    {
      var n := |heap| - 1;
      heap := Swap(heap, 0, n);
      Down(n);
      e := heap[n];
      assert heap == heap[..n] + [e];
      heap := heap[..n];
    }

    method Add(key: string, time: int)
      requires Valid()
      modifies this
      ensures Valid() && latest == old(latest)[key := time]
    {
      latest := latest[key := time];
      Push(KeyExpiry(key, time));
      forall k | k in latest ensures KeyExpiry(k, latest[k]) in heap {
        assert KeyExpiry(k, latest[k]) in multiset(heap);
      }
    }

    /** Pops what has expired, skipping the entries that are no longer the latest of their key. */
    method GetExpired(now: int) returns (expired: seq<string>)
      requires Valid()
      modifies this
      ensures Valid() && latest == Remaining(old(latest), now)
      ensures ListsExpired(old(latest), now, expired)
    {
      expired := [];
      ghost var all := latest;
      while heap != []
        invariant Valid()
        invariant Popped(all, latest, now, expired)
        invariant forall k, e :: k in expired && e in heap ==> all[k] <= e.time
        decreases |heap|
      {
        var top := heap[0];
        if top.time > now { break; }
        ghost var before := heap;
        var popped := Pop();
        StillIn(before, heap, popped);
        if popped.key !in latest { continue; }
        if popped.time < latest[popped.key] { continue; }
        TopIsEarliestOfAll(before, KeyExpiry(popped.key, latest[popped.key]));
        expired := expired + [popped.key];
        latest := latest - {popped.key};
      }
      NoneLeft(latest, heap, now);
      PoppedAll(all, latest, now, expired);
    }
  }

  /** The keys in `ks` were taken out of `all`, in order, and are the ones missing in `latest`. */
  ghost predicate Popped(all: map<string, int>, latest: map<string, int>, now: int, ks: seq<string>)
  {
    && (forall k :: k in ks <==> k in all && k !in latest)
    && (forall k :: k in latest ==> k in all && latest[k] == all[k])
    && (forall k :: k in ks ==> all[k] <= now)
    && Distinct(ks)
    && (forall i, j :: 0 <= i < j < |ks| ==> all[ks[i]] <= all[ks[j]])
  }

  lemma {:induction false} PoppedAll(all: map<string, int>, latest: map<string, int>, now: int, ks: seq<string>)
    requires Popped(all, latest, now, ks) && forall k :: k in latest ==> latest[k] > now
    ensures latest == Remaining(all, now) && ListsExpired(all, now, ks)
  {
  }

  lemma {:induction false} NoneLeft(latest: map<string, int>, h: seq<KeyExpiry>, now: int)
    requires IsHeap(h, |h|) && forall k :: k in latest ==> KeyExpiry(k, latest[k]) in h
    requires h == [] || h[0].time > now
    ensures forall k :: k in latest ==> latest[k] > now
  {
    forall k | k in latest ensures latest[k] > now {
      TopIsEarliestOfAll(h, KeyExpiry(k, latest[k]));
    }
  }

  /** All entries but the popped one are still there, and none is before it. */
  lemma {:induction false} StillIn(before: seq<KeyExpiry>, after: seq<KeyExpiry>, popped: KeyExpiry)
    requires before != [] && IsHeap(before, |before|) && popped == before[0]
    requires multiset(after) + multiset{popped} == multiset(before)
    ensures |after| == |before| - 1
    ensures forall e :: e in before && e != popped ==> e in after
    ensures forall e :: e in after ==> e in before && popped.time <= e.time
  {
    assert |multiset(before)| == |before| && |multiset(after)| == |after|;
    forall e | e in before && e != popped ensures e in after {
      assert e in multiset(before);
    }
    forall e | e in after ensures e in before && popped.time <= e.time {
      assert e in multiset(after);
      assert e in multiset(before);
      TopIsEarliestOfAll(before, e);
    }
  }
}
