/** Balance changes: what each account gains in value and pays in fees, and what each owner gains of each jetton. */
module Balances {
  import opened Basics
  import opened Sums

  type Address = string

  const NO_ADDRESS: Address := ""

  type Amounts = map<Address, int>

  function Get(m: Amounts, a: Address): (r: int)
  {
    if a in m then m[a] else 0
  }

  function Plus(m: Amounts, a: Address, v: int): (r: Amounts)
  {
    m[a := Get(m, a) + v]
  }

  /** The pointwise sum. */
  function Together(m: Amounts, n: Amounts): (r: Amounts)
  {
    map a | a in m.Keys + n.Keys :: Get(m, a) + Get(n, a)
  }

  /** For each owner, the change in each jetton, named by its master. */
  type Holdings = map<Address, Amounts>

  function Holding(j: Holdings, owner: Address): (r: Amounts)
  {
    if owner in j then j[owner] else map[]
  }

  function PlusJetton(j: Holdings, owner: Address, master: Address, v: int): (r: Holdings)
  {
    j[owner := Plus(Holding(j, owner), master, v)]
  }

  function TogetherJettons(j: Holdings, k: Holdings): (r: Holdings)
  {
    map o | o in j.Keys + k.Keys :: Together(Holding(j, o), Holding(k, o))
  }

  /** The changes in one jetton, by owner. */
  function OfMaster(j: Holdings, master: Address): (r: Amounts)
  {
    map o | o in j && master in j[o] :: j[o][master]
  }

  datatype Changes = Changes(value: Amounts, fees: Amounts, jettons: Holdings)

  const EMPTY := Changes(map[], map[], map[])

  function Merge(c: Changes, d: Changes): (r: Changes)
  {
    Changes(Together(c.value, d.value), Together(c.fees, d.fees), TogetherJettons(c.jettons, d.jettons))
  }

  function Summarized(c: Changes): (r: Amounts)
  {
    map a | a in c.value.Keys + c.fees.Keys :: Get(c.value, a) - Get(c.fees, a)
  }

  class BalanceChanges {
    var value: Amounts
    var fees: Amounts
    var jettons: Holdings

    ghost function Contents(): (c: Changes)
      reads this
    {
      Changes(value, fees, jettons)
    }

    constructor (c: Changes)
      ensures Contents() == c
    {
      value, fees, jettons := c.value, c.fees, c.jettons;
    }

    method AddValue(a: Address, v: int)
      modifies this`value
      ensures value == Plus(old(value), a, v)
    {
      if a !in value { value := value[a := 0]; }
      value := value[a := value[a] + v];
    }

    method AddFees(a: Address, v: int)
      modifies this`fees
      ensures fees == Plus(old(fees), a, v)
    {
      if a !in fees { fees := fees[a := 0]; }
      fees := fees[a := fees[a] + v];
    }

    method AddJetton(owner: Address, master: Address, v: int, negate: bool)
      modifies this`jettons
      ensures jettons == PlusJetton(old(jettons), owner, master, if negate then -v else v)
    {
      if owner !in jettons { jettons := jettons[owner := map[]]; }
      if master !in jettons[owner] { jettons := jettons[owner := jettons[owner][master := 0]]; }
      var held := jettons[owner][master];
      jettons := jettons[owner := jettons[owner][master := if negate then held - v else held + v]];
      assert jettons[owner] == Plus(Holding(old(jettons), owner), master, if negate then -v else v);
    }

    /** The entries of the other changes are taken in any order. */
    method MergeWith(d: Changes)
      modifies this
      ensures Contents() == Merge(old(Contents()), d)
    {
      value := MergeAmounts(value, d.value);
      fees := MergeAmounts(fees, d.fees);
      jettons := MergeHoldings(jettons, d.jettons);
    }

    method GetSummarizedBalanceChanges() returns (balances: Amounts)
      ensures balances == Summarized(Contents())
    {
      balances := value;
      var left := fees.Keys;
      while left != {}
        invariant left <= fees.Keys
        invariant balances.Keys == value.Keys + (fees.Keys - left)
        invariant forall a :: a in balances ==> balances[a] == Get(value, a) - if a in left then 0 else Get(fees, a)
        decreases left
      {
        var a :| a in left;
        left := left - {a};
        if a !in balances { balances := balances[a := 0]; }
        balances := balances[a := balances[a] - fees[a]];
      }
    }
  }

  method MergeAmounts(m: Amounts, n: Amounts) returns (r: Amounts)
    ensures r == Together(m, n)
  {
    r := m;
    var left := n.Keys;
    while left != {}
      invariant left <= n.Keys
      invariant r.Keys == m.Keys + (n.Keys - left)
      invariant forall a :: a in r ==> r[a] == Get(m, a) + if a in left then 0 else Get(n, a)
      decreases left
    {
      var a :| a in left;
      left := left - {a};
      if a !in r { r := r[a := 0]; }
      r := r[a := r[a] + n[a]];
    }
  }

  method MergeHoldings(j: Holdings, k: Holdings) returns (r: Holdings)
    ensures r == TogetherJettons(j, k)
  {
    r := j;
    var left := k.Keys;
    while left != {}
      invariant left <= k.Keys && r.Keys == j.Keys + (k.Keys - left)
      invariant forall o ::
        Holding(r, o) == if o in k && o !in left then Together(Holding(j, o), k[o]) else Holding(j, o)
      decreases left
    {
      var o :| o in left;
      left := left - {o};
      var merged := MergeAmounts(Holding(r, o), k[o]);
      r := r[o := merged];
    }
    SameHoldings(r, j, k);
  }

  lemma {:induction false} SameHoldings(r: Holdings, j: Holdings, k: Holdings)
    requires r.Keys == j.Keys + k.Keys
    requires forall o :: Holding(r, o) == if o in k then Together(Holding(j, o), k[o]) else Holding(j, o)
    ensures r == TogetherJettons(j, k)
  {
    forall o | o in r ensures r[o] == Together(Holding(j, o), Holding(k, o)) {
      SameHolding(r, j, k, o);
    }
  }

  lemma {:induction false} SameHolding(r: Holdings, j: Holdings, k: Holdings, o: Address)
    requires o in r && Holding(r, o) == if o in k then Together(Holding(j, o), k[o]) else Holding(j, o)
    ensures r[o] == Together(Holding(j, o), Holding(k, o))
  {
    TogetherNothing(Holding(j, o));
  }

  lemma {:induction false} TogetherNothing(m: Amounts)
    ensures Together(m, map[]) == m
  {
  }

  // ----- sums -----

  lemma {:induction false} SumPlus(m: Amounts, a: Address, v: int)
    ensures Sum(Plus(m, a, v)) == Sum(m) + v
  {
    if a in m { SumUpdate(m, a, m[a] + v); } else { SumInsert(m, a, v); }
  }

  lemma {:induction false} TogetherStep(m: Amounts, n: Amounts, rest: Amounts, a: Address)
    requires a in n && rest == n - {a}
    ensures Together(m, n) == Plus(Together(m, rest), a, n[a])
  {
    var l, r := Together(m, n), Plus(Together(m, rest), a, n[a]);
    forall x ensures (x in l <==> x in r) && Get(l, x) == Get(r, x) {
    }
    SameAmounts(l, r);
  }

  lemma {:induction false} SumTogether(m: Amounts, n: Amounts)
    ensures Sum(Together(m, n)) == Sum(m) + Sum(n)
    decreases n.Keys
  {
    if n == map[] {
      assert Together(m, n) == m;
    } else {
      var a :| a in n;
      var rest := n - {a};
      SumTogether(m, rest);
      TogetherStep(m, n, rest, a);
      SumTake(n, a);
      SumPlus(Together(m, rest), a, n[a]);
    }
  }

  lemma {:induction false} OfMasterPlus(j: Holdings, owner: Address, master: Address, v: int, m: Address)
    ensures OfMaster(PlusJetton(j, owner, master, v), m) ==
      if m == master then Plus(OfMaster(j, m), owner, v) else OfMaster(j, m)
  {
  }

  lemma {:induction false} OfMasterAt(j: Holdings, m: Address, o: Address)
    ensures o in OfMaster(j, m) <==> m in Holding(j, o)
    ensures Get(OfMaster(j, m), o) == Get(Holding(j, o), m)
  {
  }

  lemma {:induction false} OfMasterTogether(j: Holdings, k: Holdings, m: Address)
    ensures OfMaster(TogetherJettons(j, k), m) == Together(OfMaster(j, m), OfMaster(k, m))
  {
    var l, r := OfMaster(TogetherJettons(j, k), m), Together(OfMaster(j, m), OfMaster(k, m));
    forall o ensures (o in l <==> o in r) && Get(l, o) == Get(r, o) {
      OfMasterAt(TogetherJettons(j, k), m, o);
      OfMasterAt(j, m, o);
      OfMasterAt(k, m, o);
      HoldingTogether(j, k, o);
    }
    SameAmounts(l, r);
  }

  lemma {:induction false} SameAmounts(m: Amounts, n: Amounts)
    requires forall a :: (a in m <==> a in n) && Get(m, a) == Get(n, a)
    ensures m == n
  {
    forall a | a in m ensures m[a] == n[a] {
      assert Get(m, a) == Get(n, a);
    }
  }

  /** Nothing is created or lost: the value changes sum to zero, and so do the changes in every jetton. */
  ghost predicate Balanced(c: Changes)
  {
    Sum(c.value) == 0 && NoneMade(c.jettons)
  }

  ghost predicate NoneMade(j: Holdings)
  {
    forall m :: Sum(OfMaster(j, m)) == 0
  }

  lemma {:induction false} MergeBalanced(c: Changes, d: Changes)
    requires Balanced(c) && Balanced(d)
    ensures Balanced(Merge(c, d))
  {
    SumTogether(c.value, d.value);
    forall m ensures Sum(OfMaster(TogetherJettons(c.jettons, d.jettons), m)) == 0 {
      OfMasterTogether(c.jettons, d.jettons, m);
      SumTogether(OfMaster(c.jettons, m), OfMaster(d.jettons, m));
    }
  }

  lemma {:induction false} EmptyBalanced()
    ensures Balanced(EMPTY)
  {
    forall m ensures Sum(OfMaster(EMPTY.jettons, m)) == 0 {
      assert OfMaster(map[], m) == map[];
    }
  }

  /** The summarized balances of balanced changes sum to minus the fees. */
  lemma {:induction false} SummarizedSum(c: Changes)
    ensures Sum(Summarized(c)) == Sum(c.value) - Sum(c.fees)
  {
    var neg := map a | a in c.fees :: -c.fees[a];
    assert Summarized(c) == Together(c.value, neg);
    SumTogether(c.value, neg);
    SumNegated(c.fees, neg);
  }

  lemma {:induction false} SumNegated(m: Amounts, n: Amounts)
    requires n.Keys == m.Keys && forall a :: a in m ==> n[a] == -m[a]
    ensures Sum(n) == -Sum(m)
    decreases |m|
  {
    if m == map[] {
      assert n == map[];
    } else {
      var a :| a in m;
      SumTake(m, a);
      SumTake(n, a);
      SumNegated(m - {a}, n - {a});
    }
  }

  // ----- merging in any order -----

  function MergeAll(cs: seq<Changes>): (r: Changes)
  {
    if cs == [] then EMPTY else Merge(cs[0], MergeAll(cs[1..]))
  }

  lemma {:induction false} TogetherSwaps(m: Amounts, n: Amounts, o: Amounts)
    ensures Together(m, Together(n, o)) == Together(n, Together(m, o))
  {
  }

  lemma {:induction false} MergeSwaps(c: Changes, d: Changes, e: Changes)
    ensures Merge(c, Merge(d, e)) == Merge(d, Merge(c, e))
  {
    TogetherSwaps(c.value, d.value, e.value);
    TogetherSwaps(c.fees, d.fees, e.fees);
    JettonsSwap(c.jettons, d.jettons, e.jettons);
  }

  lemma {:induction false} JettonsSwap(j: Holdings, k: Holdings, l: Holdings)
    ensures TogetherJettons(j, TogetherJettons(k, l)) == TogetherJettons(k, TogetherJettons(j, l))
  {
    forall o
      ensures Together(Holding(j, o), Holding(TogetherJettons(k, l), o))
        == Together(Holding(k, o), Holding(TogetherJettons(j, l), o))
    {
      HoldingTogether(k, l, o);
      HoldingTogether(j, l, o);
      TogetherSwaps(Holding(j, o), Holding(k, o), Holding(l, o));
    }
  }

  lemma {:induction false} HoldingTogether(j: Holdings, k: Holdings, o: Address)
    ensures Holding(TogetherJettons(j, k), o) == Together(Holding(j, o), Holding(k, o))
  {
  }

  lemma {:induction false} MergeMoved(cs: seq<Changes>, j: nat)
    requires j < |cs|
    ensures MergeAll(cs) == Merge(cs[j], MergeAll(cs[..j] + cs[j + 1..]))
  {
    var rest := cs[..j] + cs[j + 1..];
    if j == 0 {
      assert rest == cs[1..];
    } else {
      MergeMoved(cs[1..], j - 1);
      TailWithout(cs, j);
      MergeSwaps(cs[0], cs[j], MergeAll(rest[1..]));
    }
  }

  lemma {:induction false} TailWithout<T>(xs: seq<T>, j: nat)
    requires 0 < j < |xs|
    ensures xs[1..][..j - 1] + xs[1..][j..] == (xs[..j] + xs[j + 1..])[1..]
    ensures (xs[..j] + xs[j + 1..])[0] == xs[0]
  {
  }

  /** Merging gives the same whatever the order. */
  lemma {:induction false} MergeAnyOrder(cs: seq<Changes>, ds: seq<Changes>)
    requires multiset(cs) == multiset(ds)
    ensures MergeAll(cs) == MergeAll(ds)
    decreases |cs|
  {
    if cs == [] {
      assert |multiset(ds)| == 0;
    } else {
      var j := TakeOut(cs, ds);
      MergeAnyOrder(cs[1..], ds[..j] + ds[j + 1..]);
      MergeMoved(ds, j);
    }
  }

  /** What is asked of balance changes: the fees or the value of an account, or an owner's change in a jetton. */
  datatype Item = FeeOf(account: Address) | ValueOf(account: Address) | JettonOf(owner: Address, master: Address)

  function Amount(c: Changes, i: Item): (r: int)
  {
    match i
    case FeeOf(a) => Get(c.fees, a)
    case ValueOf(a) => Get(c.value, a)
    case JettonOf(o, m) => Get(Holding(c.jettons, o), m)
  }

  lemma {:induction false} MergeAmount(c: Changes, d: Changes, i: Item)
    ensures Amount(Merge(c, d), i) == Amount(c, i) + Amount(d, i)
  {
    if i.JettonOf? { HoldingTogether(c.jettons, d.jettons, i.owner); }
  }

  function AmountTotal(cs: seq<Changes>, i: Item): (r: int)
  {
    if cs == [] then 0 else Amount(cs[0], i) + AmountTotal(cs[1..], i)
  }

  /** Every amount of a merge is the sum of the amounts. */
  lemma {:induction false} MergeTotals(cs: seq<Changes>, i: Item)
    ensures Amount(MergeAll(cs), i) == AmountTotal(cs, i)
  {
    if cs != [] {
      MergeTotals(cs[1..], i);
      MergeAmount(cs[0], MergeAll(cs[1..]), i);
    }
  }
}
