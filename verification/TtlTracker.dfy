/** The trackers around the expiries: synthetic traces by account, addresses by trace, and the address indexes. */
module TtlTracker {
  import opened Basics
  import opened ExpiryHeap

  /** Sets of strings by name. */
  type Index = map<string, set<string>>

  function Members(m: Index, name: string): (r: set<string>)
  {
    if name in m then m[name] else {}
  }

  /** The names under which `x` is listed. */
  function Holders(m: Index, x: string): (r: set<string>)
  {
    set a | a in m && x in m[a]
  }

  // ----- synthetic traces -----

  function Track(m: Index, account: string, id: string): (r: Index)
  {
    m[account := Members(m, account) + {id}]
  }

  /** One trace taken out of one account, and the account with it if that was the last. */
  function Drop(m: Index, account: string, id: string): (r: Index)
    requires account in m
  {
    if m[account] - {id} == {} then m - {account} else m[account := m[account] - {id}]
  }

  /** The trace is taken out of one account that has it, if any has. */
  ghost predicate Dropped(before: Index, after: Index, id: string)
  {
    if Holders(before, id) == {} then after == before
    else exists a :: a in Holders(before, id) && after == Drop(before, a, id)
  }

  /** All of `ids` taken out of every account. */
  function Without(m: Index, ids: set<string>): (r: Index)
  {
    map a | a in m && m[a] - ids != {} :: m[a] - ids
  }

  /** No account has an empty set, and no trace is in the sets of two. */
  ghost predicate Tidy(m: Index)
  {
    && (forall a :: a in m ==> m[a] != {})
    && (forall a, b, x :: a in m && b in m && x in m[a] && x in m[b] ==> a == b)
  }

  lemma {:induction false} DroppedIsWithout(before: Index, after: Index, id: string)
    requires Tidy(before) && Dropped(before, after, id)
    ensures after == Without(before, {id}) && Tidy(after)
  {
    if Holders(before, id) == {} {
      forall a | a in before ensures before[a] - {id} == before[a] {
        assert a !in Holders(before, id);
      }
    } else {
      var a :| a in Holders(before, id) && after == Drop(before, a, id);
      forall b | b in before && b != a ensures before[b] - {id} == before[b] {
        assert id !in before[b];
      }
    }
  }

  lemma {:induction false} WithoutTwice(m: Index, x: set<string>, y: set<string>)
    ensures Without(Without(m, x), y) == Without(m, x + y)
  {
    forall a | a in m ensures m[a] - x - y == m[a] - (x + y) {
    }
    forall a | a in m && m[a] - (x + y) != {} ensures m[a] - x != {} {
      assert m[a] - x - y == m[a] - (x + y);
    }
  }

  lemma {:induction false} WithoutNone(m: Index)
    requires Tidy(m)
    ensures Without(m, {}) == m
  {
    forall a | a in m ensures m[a] - {} == m[a] {
    }
  }

  /** Taking a trace out of one account takes it out of all exactly if it was in the sets of at most one. */
  lemma {:induction false} DroppedExactly(before: Index, after: Index, id: string)
    requires Dropped(before, after, id)
    ensures Holders(after, id) == {} <==> forall a, b :: a in Holders(before, id) && b in Holders(before, id) ==> a == b
  {
    if Holders(before, id) != {} {
      var a :| a in Holders(before, id) && after == Drop(before, a, id);
      forall b ensures b in Holders(after, id) <==> b in Holders(before, id) && b != a {
      }
      assert Holders(after, id) == Holders(before, id) - {a};
      if b :| b in Holders(before, id) && b != a { assert b in Holders(after, id); }
    }
  }

  /** Each of these traces in turn is taken out of one account that has it, if any has. */
  ghost predicate DroppedAll(before: Index, after: Index, ids: seq<string>)
    decreases |ids|
  {
    if ids == [] then after == before
    else
      var n := |ids| - 1;
      exists mid :: DroppedAll(before, mid, ids[..n]) && Dropped(mid, after, ids[n])
  }

  /** Each of the set, in some order. */
  ghost predicate DroppedEach(before: Index, after: Index, ids: set<string>)
  {
    exists q :: Distinct(q) && Elements(q) == ids && DroppedAll(before, after, q)
  }

  lemma {:induction false} DroppedAllOneMore(before: Index, mid: Index, after: Index, ids: seq<string>, id: string)
    requires DroppedAll(before, mid, ids) && Dropped(mid, after, id)
    ensures DroppedAll(before, after, ids + [id])
  {
    assert (ids + [id])[..|ids|] == ids;
  }

  lemma {:induction false} DroppedAllIsWithout(before: Index, after: Index, ids: seq<string>)
    requires Tidy(before) && DroppedAll(before, after, ids)
    ensures after == Without(before, Elements(ids)) && Tidy(after)
    decreases |ids|
  {
    if ids == [] {
      assert Elements(ids) == {};
      WithoutNone(before);
    } else {
      var n := |ids| - 1;
      var mid :| DroppedAll(before, mid, ids[..n]) && Dropped(mid, after, ids[n]);
      DroppedAllIsWithout(before, mid, ids[..n]);
      DroppedIsWithout(mid, after, ids[n]);
      WithoutTwice(before, Elements(ids[..n]), {ids[n]});
      assert ids == ids[..n] + [ids[n]];
      assert Elements(ids) == Elements(ids[..n]) + {ids[n]};
    }
  }

  lemma {:induction false} DroppedOther(before: Index, after: Index, id: string, x: string)
    requires Dropped(before, after, id) && x != id
    ensures Holders(after, x) == Holders(before, x)
  {
    if Holders(before, id) != {} {
      var a :| a in Holders(before, id) && after == Drop(before, a, id);
      forall b ensures b in Holders(after, x) <==> b in Holders(before, x) {
        if b == a && x in before[a] { assert x in before[a] - {id}; }
      }
    }
  }

  lemma {:induction false} DroppedFewer(before: Index, after: Index, id: string)
    requires Dropped(before, after, id)
    ensures Holders(after, id) <= Holders(before, id)
  {
  }

  ghost predicate AtMostOne(s: set<string>)
  {
    forall a, b :: a in s && b in s ==> a == b
  }

  /** One trace of the set, taken out of one of its accounts. */
  lemma {:induction false} DroppedOne(before: Index, a: string, id: string)
    requires a in Holders(before, id)
    ensures DroppedEach(before, Drop(before, a, id), {id})
  {
    var none: seq<string> := [];
    assert DroppedAll(before, before, none);
    assert Dropped(before, Drop(before, a, id), id);
    DroppedAllOneMore(before, before, Drop(before, a, id), none, id);
    assert none + [id] == [id] && Elements([id]) == {id} && Distinct([id]);
  }

  /** Whatever the accounts hold, each trace is gone from all exactly if at most one had it, and no other trace is
      touched. */
  lemma {:induction false} DroppedAllExactly(before: Index, after: Index, ids: seq<string>, x: string)
    requires Distinct(ids) && DroppedAll(before, after, ids)
    ensures x !in ids ==> Holders(after, x) == Holders(before, x)
    ensures Holders(after, x) <= Holders(before, x)
    ensures x in ids ==> (Holders(after, x) == {} <==> AtMostOne(Holders(before, x)))
    decreases |ids|
  {
    if ids != [] {
      var n := |ids| - 1;
      var mid :| DroppedAll(before, mid, ids[..n]) && Dropped(mid, after, ids[n]);
      DroppedAllExactly(before, mid, ids[..n], x);
      if x == ids[n] {
        DroppedExactly(mid, after, x);
        DroppedFewer(mid, after, x);
      } else {
        DroppedOther(mid, after, ids[n], x);
      }
    }
  }

  class SyntheticTracesTracker {
    var accounts: Index

    constructor ()
      ensures accounts == map[]
    {
      accounts := map[];
    }

    method AddSyntheticTrace(account: string, id: string)
      modifies this
      ensures accounts == Track(old(accounts), account, id)
    {
      if account !in accounts { accounts := accounts[account := {}]; }
      accounts := accounts[account := accounts[account] + {id}];
    }

    method ClearSyntheticTraces(account: string) returns (ids: seq<string>)
      modifies this
      ensures accounts == old(accounts) - {account}
      ensures Distinct(ids) && forall x :: x in ids <==> x in Members(old(accounts), account)
    {
      ids := [];
      if account in accounts {
        ids := List(accounts[account]);
        accounts := accounts - {account};
      }
    }

    method RemoveTrace(id: string)
      modifies this
      ensures Dropped(old(accounts), accounts, id)
    {
      var left := accounts.Keys;
      while left != {}
        invariant left <= accounts.Keys && accounts == old(accounts)
        invariant Holders(accounts, id) <= left
        decreases left
      {
        var a :| a in left;
        left := left - {a};
        if id in accounts[a] {
          accounts := Drop(accounts, a, id);
          assert a in Holders(old(accounts), id);
          return;
        }
      }
    }
  }

  /** The members of a set in some order. */
  method List(s: set<string>) returns (r: seq<string>)
    ensures Distinct(r) && forall x :: x in r <==> x in s
  {
    r := [];
    var left := s;
    while left != {}
      invariant left <= s && Distinct(r) && forall x :: x in r <==> x in s - left
      decreases left
    {
      var x :| x in left;
      assert x !in r;
      r, left := r + [x], left - {x};
    }
  }

  // ----- addresses by trace -----

  function Merge(m: Index, key: string, more: set<string>): (r: Index)
  {
    m[key := Members(m, key) + more]
  }

  function Elements(q: seq<string>): (r: set<string>)
  {
    set x | x in q
  }

  lemma {:induction false} OneMoreElement(q: seq<string>, i: nat)
    requires Distinct(q) && i < |q|
    ensures q[..i + 1] == q[..i] + [q[i]] && q[i] !in q[..i]
    ensures Elements(q[..i + 1]) == Elements(q[..i]) + {q[i]}
  {
  }

  class AddressCollector {
    var data: Index

    constructor ()
      ensures data == map[]
    {
      data := map[];
    }

    method MergeAddresses(key: string, addresses: seq<string>)
      modifies this
      ensures data == Merge(old(data), key, Elements(addresses))
    {
      var set' := Members(data, key);
      for i := 0 to |addresses|
        invariant set' == Members(data, key) + Elements(addresses[..i])
      {
        set' := set' + {addresses[i]};
        assert addresses[..i + 1] == addresses[..i] + [addresses[i]];
      }
      assert addresses[..|addresses|] == addresses;
      data := data[key := set'];
    }

    method GetAddresses(key: string) returns (r: seq<string>)
      ensures Distinct(r) && forall x :: x in r <==> x in Members(data, key)
    {
      r := List(Members(data, key));
    }

    method RemoveKey(key: string)
      modifies this
      ensures data == old(data) - {key}
    {
      data := data - {key};
    }
  }

  // ----- the address indexes -----

  predicate ContainsAt(member: string, key: string, i: nat)
  {
    i + |key| <= |member| && member[i..i + |key|] == key
  }

  predicate Contains(member: string, key: string)
  {
    exists i | 0 <= i <= |member| :: ContainsAt(member, key, i)
  }

  predicate ContainsAny(member: string, keys: seq<string>)
  {
    exists k | k in keys :: Contains(member, k)
  }

  function Cleaned(ms: set<string>, keys: seq<string>): (r: set<string>)
  {
    set m | m in ms && !ContainsAny(m, keys)
  }

  /** The store with its sets of members; the operations on some sets may fail. */
  class IndexStore {
    var sets: Index

    constructor (sets: Index)
      ensures this.sets == sets
    {
      this.sets := sets;
    }

    method RemoveKeysFromSortedSet(name: string, keys: seq<string>, fails: bool)
      modifies this
      ensures forall s :: s != name || fails ==> Members(sets, s) == Members(old(sets), s)
      ensures !fails ==> Members(sets, name) == Cleaned(Members(old(sets), name), keys)
    {
      if fails { return; }
      var members := List(Members(sets, name));
      var toRemove: seq<string> := [];
      for i := 0 to |members|
        invariant forall m :: m in toRemove <==> m in members[..i] && ContainsAny(m, keys)
      {
        var member := members[i];
        ghost var before := toRemove;
        for j := 0 to |keys|
          invariant forall m :: m in toRemove <==> m in before || (m == member && ContainsAny(member, keys[..j]))
        {
          assert keys[..j + 1] == keys[..j] + [keys[j]];
          if Contains(member, keys[j]) { toRemove := toRemove + [member]; }
        }
        assert keys[..|keys|] == keys;
        assert members[..i + 1] == members[..i] + [member];
      }
      assert members[..|members|] == members;
      if |toRemove| == 0 {
        assert Cleaned(Members(sets, name), keys) == Members(sets, name);
        return;
      }
      sets := sets[name := Members(sets, name) - Elements(toRemove)];
      assert Members(sets, name) == Cleaned(Members(old(sets), name), keys);
    }
  }

  // ----- the tracker -----

  datatype Node = Node(account: string, emulated: bool)

  datatype TraceData = TraceData(rootKey: string, nodes: map<string, Node>)

  datatype Config = Config(defaultTtl: int, syntheticTtl: int, completedTtl: int)

  /** Expiries, synthetic traces by account, addresses by trace, and the sets of the store. */
  datatype Tracker = Tracker(latest: map<string, int>, synthetic: Index, collected: Index, sets: Index)

  function Ttl(c: Config, data: Option<TraceData>): (r: int)
  {
    if data.None? then c.defaultTtl
    else
      var nodes, root := data.value.nodes, data.value.rootKey;
      if root in nodes && nodes[root].emulated then c.syntheticTtl
      else if forall k :: k in nodes ==> !nodes[k].emulated then c.completedTtl
      else c.defaultTtl
  }

  /** What the clock shows when a trace is expired; it is read for each. */
  type Clock = string -> int

  /** Each of `keys` gets the time read for it as its expiry. */
  function Expire(latest: map<string, int>, keys: set<string>, clock: Clock): (r: map<string, int>)
  {
    latest + map k | k in keys :: clock(k)
  }

  lemma {:induction false} ExpireOneMore(latest: map<string, int>, keys: set<string>, k: string, clock: Clock)
    ensures Expire(latest, keys, clock)[k := clock(k)] == Expire(latest, keys + {k}, clock)
  {
  }

  /** A trace with an emulated root is tracked for the root's account; any other root supersedes what is tracked for
      it. */
  function EmulationStatus(t: Tracker, key: string, data: TraceData, clock: Clock): (r: Tracker)
  {
    if data.rootKey !in data.nodes then t
    else
      var root := data.nodes[data.rootKey];
      if root.emulated then t.(synthetic := Track(t.synthetic, root.account, key))
      else t.(synthetic := t.synthetic - {root.account},
              latest := Expire(t.latest, Members(t.synthetic, root.account) - {key}, clock))
  }

  function Accounts(nodes: map<string, Node>): (r: set<string>)
  {
    AccountsOf(nodes, nodes.Keys)
  }

  function AccountsOf(nodes: map<string, Node>, keys: set<string>): (r: set<string>)
    requires keys <= nodes.Keys
  {
    set k | k in keys :: nodes[k].account
  }

  lemma {:induction false} AccountsOneMore(nodes: map<string, Node>, keys: set<string>, k: string)
    requires keys <= nodes.Keys && k in nodes
    ensures AccountsOf(nodes, keys + {k}) == AccountsOf(nodes, keys) + {nodes[k].account}
  {
    var r := AccountsOf(nodes, keys + {k});
    forall j | j in keys + {k} ensures nodes[j].account in r {
    }
    assert k in keys + {k};
    forall a | a in AccountsOf(nodes, keys) ensures a in r {
      var j :| j in keys && nodes[j].account == a;
      assert j in keys + {k};
    }
  }

  /** A message that announces a trace; without data when the trace could not be read. */
  function OnTrace(c: Config, t: Tracker, key: string, data: Option<TraceData>, now: int, clock: Clock): (r: Tracker)
  {
    var u := t.(latest := t.latest[key := now + Ttl(c, data)]);
    if data.None? then u else Announced(u, key, data.value, clock)
  }

  /** What a message with data changes beside the trace's own expiry. */
  function Announced(t: Tracker, key: string, data: TraceData, clock: Clock): (r: Tracker)
  {
    var u := EmulationStatus(t, key, data, clock);
    u.(collected := Merge(u.collected, key, Accounts(data.nodes)))
  }

  function OnReference(t: Tracker, account: string, key: string): (r: Tracker)
  {
    t.(collected := Merge(t.collected, key, {account}))
  }

  // ----- the expiry pass -----

  function Expired(latest: map<string, int>, now: int): (r: set<string>)
  {
    set k | k in latest && latest[k] <= now
  }

  /** The expired traces that are to be taken out of the indexes of an address. */
  predicate Stale(t: Tracker, now: int, undeleted: set<string>, address: string, key: string)
  {
    key in Expired(t.latest, now) && key !in undeleted && address in Members(t.collected, key)
  }

  const ACTIONS := "_aai:"

  /** A member goes from the set of an address, or from the action set of one, if it contains a stale trace of that
      address. */
  ghost predicate Hit(t: Tracker, now: int, undeleted: set<string>, name: string, member: string)
  {
    || (exists k :: Stale(t, now, undeleted, name, k) && Contains(member, k))
    || (|name| >= |ACTIONS| && name[..|ACTIONS|] == ACTIONS &&
        exists k :: Stale(t, now, undeleted, name[|ACTIONS|..], k) && Contains(member, k))
  }

  /** The whole pass. The store may fail to delete some keys and to change some sets. */
  ghost predicate IsPass(t: Tracker, u: Tracker, now: int, undeleted: set<string>, failing: set<string>)
  {
    && u.latest == Remaining(t.latest, now)
    && DroppedEach(t.synthetic, u.synthetic, Expired(t.latest, now))
    && u.collected == t.collected - Expired(t.latest, now)
    && (forall s, m ::
         m in Members(u.sets, s) <==> m in Members(t.sets, s) && (s in failing || !Hit(t, now, undeleted, s, m)))
  }

  lemma {:induction false} PassIsWithout(t: Tracker, u: Tracker, now: int, undeleted: set<string>, failing: set<string>)
    requires IsPass(t, u, now, undeleted, failing) && Tidy(t.synthetic)
    ensures u.synthetic == Without(t.synthetic, Expired(t.latest, now))
  {
    var q :| Distinct(q) && Elements(q) == Expired(t.latest, now) && DroppedAll(t.synthetic, u.synthetic, q);
    DroppedAllIsWithout(t.synthetic, u.synthetic, q);
  }

  /** An expired trace is tracked for no account after a pass if and only if at most one tracked it before; what has not
      expired is tracked as before. */
  lemma {:induction false} PassForgetsExactly(t: Tracker, u: Tracker, now: int, undeleted: set<string>,
                                              failing: set<string>, x: string)
    requires IsPass(t, u, now, undeleted, failing)
    ensures x !in Expired(t.latest, now) ==> Holders(u.synthetic, x) == Holders(t.synthetic, x)
    ensures Holders(u.synthetic, x) <= Holders(t.synthetic, x)
    ensures x in Expired(t.latest, now) ==> (Holders(u.synthetic, x) == {} <==> AtMostOne(Holders(t.synthetic, x)))
  {
    var q :| Distinct(q) && Elements(q) == Expired(t.latest, now) && DroppedAll(t.synthetic, u.synthetic, q);
    assert x in q <==> x in Elements(q);
    DroppedAllExactly(t.synthetic, u.synthetic, q, x);
  }

  class RedisTTLTracker {
    const config: Config
    const expiry: ExpiryTracker
    const synthetic: SyntheticTracesTracker
    const collector: AddressCollector
    const store: IndexStore

    ghost predicate Valid()
      reads expiry
    {
      expiry.Valid()
    }

    ghost function View(): (t: Tracker)
      reads expiry, synthetic, collector, store
    {
      Tracker(expiry.latest, synthetic.accounts, collector.data, store.sets)
    }

    constructor (config: Config, sets: Index)
      ensures this.config == config && Valid() && View() == Tracker(map[], map[], map[], sets)
      ensures fresh(expiry) && fresh(synthetic) && fresh(collector) && fresh(store)
    {
      this.config := config;
      expiry := new ExpiryTracker();
      synthetic := new SyntheticTracesTracker();
      collector := new AddressCollector();
      store := new IndexStore(sets);
    }

    method SetupTraceTtl(key: string, data: Option<TraceData>, now: int)
      requires Valid()
      modifies expiry
      ensures Valid() && expiry.latest == old(expiry.latest)[key := now + Ttl(config, data)]
    {
      var ttl := config.defaultTtl;
      if data.Some? {
        var nodes, root := data.value.nodes, data.value.rootKey;
        if root in nodes && nodes[root].emulated {
          ttl := config.syntheticTtl;
        } else {
          var emulated, left := 0, nodes.Keys;
          while left != {}
            invariant left <= nodes.Keys && emulated >= 0
            invariant emulated == 0 <==> forall k :: k in nodes.Keys - left ==> !nodes[k].emulated
            decreases left
          {
            var k :| k in left;
            if nodes[k].emulated { emulated := emulated + 1; }
            left := left - {k};
          }
          if emulated == 0 { ttl := config.completedTtl; }
        }
      }
      expiry.Add(key, now + ttl);
    }

    /** Every cleared trace but the new one expires now. */
    method ExpireCleared(cleared: seq<string>, key: string, clock: Clock)
      requires Valid()
      modifies expiry
      ensures Valid() && expiry.latest == Expire(old(expiry.latest), Elements(cleared) - {key}, clock)
    {
      for i := 0 to |cleared|
        invariant Valid() && expiry.latest == Expire(old(expiry.latest), Elements(cleared[..i]) - {key}, clock)
      {
        assert cleared[..i + 1] == cleared[..i] + [cleared[i]];
        if cleared[i] != key {
          expiry.Add(cleared[i], clock(cleared[i]));
          ExpireOneMore(old(expiry.latest), Elements(cleared[..i]) - {key}, cleared[i], clock);
          assert Elements(cleared[..i + 1]) - {key} == Elements(cleared[..i]) - {key} + {cleared[i]};
        } else {
          assert Elements(cleared[..i + 1]) - {key} == Elements(cleared[..i]) - {key};
        }
      }
      assert cleared[..|cleared|] == cleared;
    }

    method HandleTraceEmulationStatus(key: string, data: TraceData, clock: Clock)
      requires Valid()
      modifies expiry, synthetic
      ensures Valid() && View() == EmulationStatus(old(View()), key, data, clock)
    {
      if data.rootKey in data.nodes {
        var root := data.nodes[data.rootKey];
        if root.emulated {
          synthetic.AddSyntheticTrace(root.account, key);
        } else {
          var cleared := synthetic.ClearSyntheticTraces(root.account);
          assert Elements(cleared) == Members(old(synthetic.accounts), root.account);
          ExpireCleared(cleared, key, clock);
        }
      }
    }

    method CollectAndMergeAddresses(key: string, data: TraceData)
      modifies collector
      ensures collector.data == Merge(old(collector.data), key, Accounts(data.nodes))
    {
      var addresses: seq<string>, left := [], data.nodes.Keys;
      while left != {}
        invariant left <= data.nodes.Keys
        invariant Elements(addresses) == AccountsOf(data.nodes, data.nodes.Keys - left)
        invariant collector.data == old(collector.data)
        decreases left
      {
        var k :| k in left;
        AccountsOneMore(data.nodes, data.nodes.Keys - left, k);
        assert data.nodes.Keys - (left - {k}) == data.nodes.Keys - left + {k};
        addresses, left := addresses + [data.nodes[k].account], left - {k};
      }
      assert data.nodes.Keys - left == data.nodes.Keys;
      assert Elements(addresses) == Accounts(data.nodes);
      collector.MergeAddresses(key, addresses);
    }

    /** A message that announces a trace. */
    method OnTraceMessage(key: string, data: Option<TraceData>, now: int, clock: Clock)
      requires Valid()
      modifies expiry, synthetic, collector
      ensures Valid() && View() == OnTrace(config, old(View()), key, data, now, clock)
    {
      ghost var before := View();
      SetupTraceTtl(key, data, now);
      assert View() == before.(latest := before.latest[key := now + Ttl(config, data)]);
      if data.Some? { Announce(key, data.value, clock); }
    }

    method Announce(key: string, data: TraceData, clock: Clock)
      requires Valid()
      modifies expiry, synthetic, collector
      ensures Valid() && View() == Announced(old(View()), key, data, clock)
    {
      HandleTraceEmulationStatus(key, data, clock);
      CollectAndMergeAddresses(key, data);
    }

    method OnReferenceMessage(account: string, key: string)
      modifies collector
      ensures View() == OnReference(old(View()), account, key)
    {
      collector.MergeAddresses(key, [account]);
      assert Elements([account]) == {account};
    }

    /** Takes a key out of the trackers, and lists its addresses. */
    method Forget(key: string) returns (addresses: seq<string>)
      modifies synthetic, collector
      ensures Dropped(old(synthetic.accounts), synthetic.accounts, key)
      ensures collector.data == old(collector.data) - {key}
      ensures forall a :: a in addresses <==> a in Members(old(collector.data), key)
    {
      synthetic.RemoveTrace(key);
      addresses := collector.GetAddresses(key);
      collector.RemoveKey(key);
    }

    /** Forgets an expired key, deletes it, and notes it for each of its addresses. */
    method ForgetAndNote(key: string, undeleted: set<string>, noted: map<string, seq<string>>)
      returns (r: map<string, seq<string>>)
      modifies synthetic, collector
      ensures Dropped(old(synthetic.accounts), synthetic.accounts, key) && collector.data == old(collector.data) - {key}
      ensures NotedMore(noted, r, old(collector.data), key, undeleted)
    {
      var addresses := Forget(key);
      r := noted;
      if key !in undeleted { r := Note(noted, key, addresses); }
    }

    /** For each expired key: forget it in the trackers, delete it, and note it for each of its addresses. */
    method CollectExpired(expired: seq<string>, undeleted: set<string>)
      returns (addressToKeys: map<string, seq<string>>)
      requires Distinct(expired)
      modifies synthetic, collector
      ensures DroppedAll(old(synthetic.accounts), synthetic.accounts, expired)
      ensures collector.data == old(collector.data) - Elements(expired)
      ensures Noted(addressToKeys, old(collector.data), expired, undeleted)
    {
      addressToKeys := map[];
      ghost var all, data := synthetic.accounts, collector.data;
      assert Elements(expired[..0]) == {};
      for i := 0 to |expired|
        invariant DroppedAll(all, synthetic.accounts, expired[..i])
        invariant collector.data == data - Elements(expired[..i])
        invariant Noted(addressToKeys, data, expired[..i], undeleted)
      {
        var key := expired[i];
        ghost var accounts, noted := synthetic.accounts, addressToKeys;
        addressToKeys := ForgetAndNote(key, undeleted, addressToKeys);
        OneMoreElement(expired, i);
        DroppedAllOneMore(all, accounts, synthetic.accounts, expired[..i], key);
        NotedOneMore(noted, addressToKeys, data, expired[..i], key, undeleted);
      }
      assert expired[..|expired|] == expired;
    }

    /** Cleans, for each address noted, the set named by a prefix and the address. */
    method CleanSets(addressToKeys: map<string, seq<string>>, prefix: string, failing: set<string>)
      modifies store
      ensures CleanedFor(old(store.sets), store.sets, addressToKeys, addressToKeys.Keys, prefix, failing)
    {
      var left := addressToKeys.Keys;
      while left != {}
        invariant left <= addressToKeys.Keys
        invariant CleanedFor(old(store.sets), store.sets, addressToKeys, addressToKeys.Keys - left, prefix, failing)
        decreases left
      {
        var a :| a in left;
        ghost var done, sets := addressToKeys.Keys - left, store.sets;
        left := left - {a};
        store.RemoveKeysFromSortedSet(prefix + a, addressToKeys[a], prefix + a in failing);
        CleanedOneMore(old(store.sets), sets, store.sets, addressToKeys, done, prefix, failing, a);
        assert addressToKeys.Keys - left == done + {a};
      }
    }

    /** The expiry pass. */
    method HandleExpiredKeys(now: int, undeleted: set<string>, failing: set<string>)
      requires Valid()
      modifies expiry, synthetic, collector, store
      ensures Valid() && IsPass(old(View()), View(), now, undeleted, failing)
    {
      ghost var before := View();
      var expired := expiry.GetExpired(now);
      assert Elements(expired) == Expired(before.latest, now);
      if |expired| == 0 {
        NothingExpired(before, View(), now, undeleted, failing);
        return;
      }
      var addressToKeys := CollectExpired(expired, undeleted);
      assert DroppedEach(before.synthetic, synthetic.accounts, Expired(before.latest, now));
      CleanSets(addressToKeys, "", failing);
      ghost var mid := store.sets;
      CleanSets(addressToKeys, ACTIONS, failing);
      IndexesCleaned(before, mid, store.sets, addressToKeys, now, undeleted, failing);
    }
  }

  /** In the sets named by the prefix and an address of `done`, the members that contain a key noted for it are gone. */
  ghost predicate CleanedFor(before: Index, after: Index, noted: map<string, seq<string>>, done: set<string>,
                             prefix: string, failing: set<string>)
  {
    forall s :: Members(after, s) ==
      if prefix <= s && s[|prefix|..] in done && s !in failing
      then Cleaned(Members(before, s), NotedFor(noted, s[|prefix|..]))
      else Members(before, s)
  }

  lemma {:induction false} CleanedOneMore(before: Index, mid: Index, after: Index, noted: map<string, seq<string>>,
                                          done: set<string>, prefix: string, failing: set<string>, a: string)
    requires CleanedFor(before, mid, noted, done, prefix, failing) && a in noted && a !in done
    requires forall s :: s != prefix + a || prefix + a in failing ==> Members(after, s) == Members(mid, s)
    requires prefix + a !in failing ==> Members(after, prefix + a) == Cleaned(Members(mid, prefix + a), noted[a])
    ensures CleanedFor(before, after, noted, done + {a}, prefix, failing)
  {
    forall s ensures Members(after, s) ==
      if prefix <= s && s[|prefix|..] in done + {a} && s !in failing
      then Cleaned(Members(before, s), NotedFor(noted, s[|prefix|..]))
      else Members(before, s)
    {
      if prefix <= s && s[|prefix|..] == a { assert s == prefix + a; }
      assert (prefix + a)[|prefix|..] == a;
    }
  }

  function NotedFor(m: map<string, seq<string>>, address: string): (r: seq<string>)
  {
    if address in m then m[address] else []
  }

  /** The keys noted for each address are the deleted ones that have it. */
  ghost predicate Noted(m: map<string, seq<string>>, collected: Index, expired: seq<string>, undeleted: set<string>)
  {
    forall a, k :: k in NotedFor(m, a) <==> k in expired && k !in undeleted && a in Members(collected, k)
  }

  /** The key is noted too, for each of its addresses, if it was deleted. */
  ghost predicate NotedMore(m: map<string, seq<string>>, r: map<string, seq<string>>, collected: Index, key: string,
                            undeleted: set<string>)
  {
    forall a, k :: k in NotedFor(r, a) <==>
      k in NotedFor(m, a) || (k == key && key !in undeleted && a in Members(collected, key))
  }

  lemma {:induction false} NotedOneMore(m: map<string, seq<string>>, r: map<string, seq<string>>, collected: Index,
                                        done: seq<string>, key: string, undeleted: set<string>)
    requires Noted(m, collected, done, undeleted) && key !in done
    requires NotedMore(m, r, collected - Elements(done), key, undeleted)
    ensures Noted(r, collected, done + [key], undeleted)
  {
    assert Members(collected - Elements(done), key) == Members(collected, key);
  }

  method Note(m: map<string, seq<string>>, key: string, addresses: seq<string>) returns (r: map<string, seq<string>>)
    ensures forall a, k :: k in NotedFor(r, a) <==> k in NotedFor(m, a) || (k == key && a in addresses)
  {
    r := m;
    for i := 0 to |addresses|
      invariant forall a, k :: k in NotedFor(r, a) <==> k in NotedFor(m, a) || (k == key && a in addresses[..i])
    {
      r := r[addresses[i] := NotedFor(r, addresses[i]) + [key]];
    }
  }

  lemma {:induction false} NothingExpired(t: Tracker, u: Tracker, now: int, undeleted: set<string>,
                                          failing: set<string>)
    requires Expired(t.latest, now) == {} && u == t.(latest := Remaining(t.latest, now))
    ensures IsPass(t, u, now, undeleted, failing)
  {
    var none: seq<string> := [];
    assert Elements(none) == {} && DroppedAll(t.synthetic, u.synthetic, none);
    assert DroppedEach(t.synthetic, u.synthetic, {});
  }

  /** Both rounds together take out exactly the members hit. */
  lemma {:induction false} IndexesCleaned(t: Tracker, mid: Index, after: Index, noted: map<string, seq<string>>,
                                          now: int,
                                          undeleted: set<string>, failing: set<string>)
    requires forall a, k :: k in NotedFor(noted, a) <==> Stale(t, now, undeleted, a, k)
    requires CleanedFor(t.sets, mid, noted, noted.Keys, "", failing)
    requires CleanedFor(mid, after, noted, noted.Keys, ACTIONS, failing)
    ensures forall s, m ::
      m in Members(after, s) <==> m in Members(t.sets, s) && (s in failing || !Hit(t, now, undeleted, s, m))
  {
    forall s, m
      ensures m in Members(after, s) <==> m in Members(t.sets, s) && (s in failing || !Hit(t, now, undeleted, s, m))
    {
      CleanedMember(t.sets, mid, noted, "", failing, s, m);
      CleanedMember(mid, after, noted, ACTIONS, failing, s, m);
      HitMeans(t, noted, now, undeleted, s, m);
    }
  }

  /** What is left of one set after one round. */
  lemma {:induction false} CleanedMember(before: Index, after: Index, noted: map<string, seq<string>>, prefix: string,
                                         failing: set<string>, s: string, m: string)
    requires CleanedFor(before, after, noted, noted.Keys, prefix, failing)
    ensures m in Members(after, s) <==>
      m in Members(before, s) && (s in failing || !(prefix <= s && ContainsAny(m, NotedFor(noted, s[|prefix|..]))))
  {
  }

  lemma {:induction false} HitMeans(t: Tracker, noted: map<string, seq<string>>, now: int, undeleted: set<string>,
                                    s: string, m: string)
    requires forall a, k :: k in NotedFor(noted, a) <==> Stale(t, now, undeleted, a, k)
    ensures Hit(t, now, undeleted, s, m) <==>
      ContainsAny(m, NotedFor(noted, s[|""|..])) || (ACTIONS <= s && ContainsAny(m, NotedFor(noted, s[|ACTIONS|..])))
  {
    assert s[|""|..] == s;
    assert ACTIONS <= s <==> |s| >= |ACTIONS| && s[..|ACTIONS|] == ACTIONS;
  }
}
