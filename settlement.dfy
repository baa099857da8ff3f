/** `simplifyDebts` (src/lib/debt-calculator.ts): turns net balances into a list of
    payments by matching the largest debts with the largest credits. */
module Settlement {
  import opened Types
  import opened BalanceMap

  /** Balances of at most this magnitude count as settled. */
  const Threshold: real := 0.01

  function Abs(x: real): real
  {
    if x < 0.0 then -x else x
  }

  function Min(a: real, b: real): real
  {
    if a <= b then a else b
  }

  // ---------------------------------------------------------------------------
  // Setup: drop the settled entries, split into debtors and creditors, sort both.

  predicate IsOutstanding(e: Entry)
  {
    Abs(e.balance) > Threshold
  }

  predicate IsDebtor(e: Entry)
  {
    e.balance < 0.0
  }

  predicate IsCreditor(e: Entry)
  {
    e.balance > 0.0
  }

  /** `Array.prototype.filter`: the entries that satisfy `keep`, in their order. */
  function Filter(s: Balances, keep: Entry -> bool): (r: Balances)
    ensures forall x :: x in r <==> x in s && keep(x)
    ensures |r| <= |s|
  {
    if |s| == 0 then []
    else (if keep(s[0]) then [s[0]] else []) + Filter(s[1..], keep)
  }

  /** Filtering never introduces a repeated key. */
  lemma {:induction false} FilterDistinct(s: Balances, keep: Entry -> bool)
    requires DistinctKeys(s)
    ensures DistinctKeys(Filter(s, keep))
  {
    if |s| > 0 {
      FilterDistinct(s[1..], keep);
      var rest := Filter(s[1..], keep);
      forall y | y in rest ensures y.personId != s[0].personId {
        var j :| 0 <= j < |s[1..]| && s[1..][j] == y;
        assert s[j + 1] == y;
      }
    }
  }

  /** Entries that satisfy neither of two exclusive conditions are counted once. */
  lemma {:induction false} FilterSplit(s: Balances, p: Entry -> bool, q: Entry -> bool)
    requires forall x :: !(p(x) && q(x))
    ensures |Filter(s, p)| + |Filter(s, q)| <= |s|
  {
    if |s| > 0 {
      FilterSplit(s[1..], p, q);
    }
  }

  /** The sort key: the balance for the ascending sort of the debtors, its negation
      for the descending sort of the creditors. */
  function Key(e: Entry, descending: bool): real
  {
    if descending then -e.balance else e.balance
  }

  predicate Sorted(s: Balances, descending: bool)
  {
    forall i, j :: 0 <= i < j < |s| ==> Key(s[i], descending) <= Key(s[j], descending)
  }

  /** The entries of `s` whose key is `v`, in their order in `s`. A sort is stable
      when it keeps every such group as it was. */
  function Tier(s: Balances, v: real, descending: bool): Balances
  {
    if |s| == 0 then []
    else Tier(s[..|s| - 1], v, descending)
         + (if Key(s[|s| - 1], descending) == v then [s[|s| - 1]] else [])
  }

  /** Places `x` after every entry whose key does not exceed its own. */
  function Insert(r: Balances, x: Entry, descending: bool): Balances
  {
    if |r| == 0 || Key(r[|r| - 1], descending) <= Key(x, descending) then r + [x]
    else Insert(r[..|r| - 1], x, descending) + [r[|r| - 1]]
  }

  /** `Array.prototype.sort` with the comparator `a.balance - b.balance` (or
      `b.balance - a.balance`): a stable insertion sort. */
  function SortBy(s: Balances, descending: bool): Balances
  {
    if |s| == 0 then [] else Insert(SortBy(s[..|s| - 1], descending), s[|s| - 1], descending)
  }

  lemma {:induction false} TierSnoc(s: Balances, y: Entry, v: real, descending: bool)
    ensures Tier(s + [y], v, descending)
            == Tier(s, v, descending) + (if Key(y, descending) == v then [y] else [])
  {
    assert (s + [y])[..|s|] == s;
  }

  /** Inserting adds exactly one copy of `x`. */
  lemma {:induction false} InsertPerm(r: Balances, x: Entry, descending: bool)
    ensures multiset(Insert(r, x, descending)) == multiset(r) + multiset{x}
  {
    if !(|r| == 0 || Key(r[|r| - 1], descending) <= Key(x, descending)) {
      var init, last := r[..|r| - 1], r[|r| - 1];
      assert r == init + [last];
      InsertPerm(init, x, descending);
    }
  }

  /** Inserting into a sorted list keeps it sorted. */
  lemma {:induction false} InsertSorted(r: Balances, x: Entry, descending: bool)
    requires Sorted(r, descending)
    ensures Sorted(Insert(r, x, descending), descending)
  {
    if !(|r| == 0 || Key(r[|r| - 1], descending) <= Key(x, descending)) {
      var init, last := r[..|r| - 1], r[|r| - 1];
      InsertSorted(init, x, descending);
      InsertPerm(init, x, descending);
      var mid := Insert(init, x, descending);
      var top := Key(last, descending);
      assert forall k :: 0 <= k < |init| ==> Key(init[k], descending) <= top by {
        assert forall k :: 0 <= k < |init| ==> init[k] == r[k];
      }
      forall y | y in mid ensures Key(y, descending) <= top {
        assert y in multiset(mid);
        if y != x {
          var k :| 0 <= k < |init| && init[k] == y;
        }
      }
      var out := mid + [last];
      forall i, j | 0 <= i < j < |out| ensures Key(out[i], descending) <= Key(out[j], descending) {
        if j == |mid| {
          assert out[i] == mid[i] && mid[i] in mid;
        } else {
          assert out[i] == mid[i] && out[j] == mid[j];
        }
      }
    }
  }

  /** Inserting places `x` after every entry of equal key. */
  lemma {:induction false} InsertTier(r: Balances, x: Entry, descending: bool, v: real)
    ensures Tier(Insert(r, x, descending), v, descending)
            == Tier(r, v, descending) + (if Key(x, descending) == v then [x] else [])
  {
    if |r| == 0 || Key(r[|r| - 1], descending) <= Key(x, descending) {
      TierSnoc(r, x, v, descending);
    } else {
      var init, last := r[..|r| - 1], r[|r| - 1];
      assert r == init + [last];
      InsertTier(init, x, descending, v);
      var mid := Insert(init, x, descending);
      TierSnoc(mid, last, v, descending);
      TierSnoc(init, last, v, descending);
      var ti := Tier(init, v, descending);
      var tx: Balances := if Key(x, descending) == v then [x] else [];
      var tl: Balances := if Key(last, descending) == v then [last] else [];
      assert tx == [] || tl == [];
      calc {
        Tier(Insert(r, x, descending), v, descending);
        Tier(mid, v, descending) + tl;
        ti + tx + tl;
        { assert tx + tl == tl + tx; }
        ti + tl + tx;
        Tier(r, v, descending) + tx;
      }
    }
  }

  /** The sort orders by key, keeps every entry, and keeps entries of equal key in
      their input order. */
  lemma {:induction false} SortSpec(s: Balances, descending: bool)
    ensures Sorted(SortBy(s, descending), descending)
    ensures multiset(SortBy(s, descending)) == multiset(s)
    ensures forall v :: Tier(SortBy(s, descending), v, descending) == Tier(s, v, descending)
  {
    if |s| > 0 {
      var init, last := s[..|s| - 1], s[|s| - 1];
      SortSpec(init, descending);
      var sorted := SortBy(init, descending);
      InsertPerm(sorted, last, descending);
      InsertSorted(sorted, last, descending);
      forall v ensures Tier(SortBy(s, descending), v, descending) == Tier(s, v, descending) {
        InsertTier(sorted, last, descending, v);
      }
      assert s == init + [last];
    }
  }

  lemma {:induction false} InsertDistinct(r: Balances, x: Entry, descending: bool)
    requires Sorted(r, descending) && DistinctKeys(r)
    requires forall y :: y in r ==> y.personId != x.personId
    ensures DistinctKeys(Insert(r, x, descending))
  {
    if |r| == 0 || Key(r[|r| - 1], descending) <= Key(x, descending) {
    } else {
      var init, last := r[..|r| - 1], r[|r| - 1];
      assert Sorted(init, descending);
      InsertDistinct(init, x, descending);
      InsertPerm(init, x, descending);
      var mid := Insert(init, x, descending);
      forall y | y in mid ensures y.personId != last.personId {
        assert y in multiset(mid);
        if y != x {
          var i :| 0 <= i < |init| && init[i] == y;
          assert r[i] == y;
        }
      }
    }
  }

  /** Sorting a map without repeated keys gives a list without repeated keys. */
  lemma {:induction false} SortDistinct(s: Balances, descending: bool)
    requires DistinctKeys(s)
    ensures DistinctKeys(SortBy(s, descending))
  {
    if |s| > 0 {
      var init, last := s[..|s| - 1], s[|s| - 1];
      SortDistinct(init, descending);
      SortSpec(init, descending);
      var sorted := SortBy(init, descending);
      forall y | y in sorted ensures y.personId != last.personId {
        assert y in multiset(init);
        var i :| 0 <= i < |init| && init[i] == y;
        assert s[i] == y;
      }
      InsertDistinct(sorted, last, descending);
    }
  }

  /** The entries the sweep works on: `|balance| > threshold`, in map order. */
  function Outstanding(m: Balances): Balances
  {
    Filter(m, IsOutstanding)
  }

  /** The debtors, most negative balance first. */
  function Debtors(m: Balances): Balances
  {
    SortBy(Filter(Outstanding(m), IsDebtor), false)
  }

  /** The creditors, largest balance first. */
  function Creditors(m: Balances): Balances
  {
    SortBy(Filter(Outstanding(m), IsCreditor), true)
  }

  /** The debtors are exactly the entries below minus the threshold, sorted ascending,
      a permutation of the filtered map, with ties kept in map order. */
  lemma DebtorsSpec(m: Balances)
    ensures forall x :: x in Debtors(m) <==> x in m && x.balance < -Threshold
    ensures Sorted(Debtors(m), false)
    ensures multiset(Debtors(m)) == multiset(Filter(Outstanding(m), IsDebtor))
    ensures forall v :: Tier(Debtors(m), v, false) == Tier(Filter(Outstanding(m), IsDebtor), v, false)
  {
    var f := Filter(Outstanding(m), IsDebtor);
    SortSpec(f, false);
    forall x ensures x in Debtors(m) <==> x in m && x.balance < -Threshold {
      assert x in Debtors(m) <==> x in multiset(Debtors(m));
      assert x in f <==> x in Outstanding(m) && IsDebtor(x);
    }
  }

  /** The creditors are exactly the entries above the threshold, sorted descending,
      a permutation of the filtered map, with ties kept in map order. */
  lemma CreditorsSpec(m: Balances)
    ensures forall x :: x in Creditors(m) <==> x in m && x.balance > Threshold
    ensures Sorted(Creditors(m), true)
    ensures multiset(Creditors(m)) == multiset(Filter(Outstanding(m), IsCreditor))
    ensures forall v :: Tier(Creditors(m), v, true) == Tier(Filter(Outstanding(m), IsCreditor), v, true)
  {
    var f := Filter(Outstanding(m), IsCreditor);
    SortSpec(f, true);
    forall x ensures x in Creditors(m) <==> x in m && x.balance > Threshold {
      assert x in Creditors(m) <==> x in multiset(Creditors(m));
      assert x in f <==> x in Outstanding(m) && IsCreditor(x);
    }
  }

  /** There are never more debtors and creditors together than entries in the map. */
  lemma PartiesFit(m: Balances)
    ensures |Debtors(m)| + |Creditors(m)| <= |m|
  {
    var o := Outstanding(m);
    SortSpec(Filter(o, IsDebtor), false);
    SortSpec(Filter(o, IsCreditor), true);
    assert |Debtors(m)| == |multiset(Debtors(m))|;
    assert |Creditors(m)| == |multiset(Creditors(m))|;
    FilterSplit(o, IsDebtor, IsCreditor);
  }

  // ---------------------------------------------------------------------------
  // The two-pointer sweep.

  /** Whether the sweep is done with a side whose balance is `b`: the source moves on
      when `|b| < threshold`; with `inclusive` it also moves on at exactly the threshold. */
  predicate Closed(b: real, inclusive: bool)
  {
    if inclusive then Abs(b) <= Threshold else Abs(b) < Threshold
  }

  /** The state of the sweep after one turn of its loop, with what the turn emitted. */
  datatype Turn = Turn(emitted: seq<Transaction>, ds: Balances, cs: Balances, di: nat, ci: nat)

  /** One turn of the loop from the current debtor `ds[di]` and creditor `cs[ci]`:
      settle `min(-debtor, creditor)` when it exceeds the threshold, then move past
      each side that is closed. */
  function Step(ds: Balances, cs: Balances, di: nat, ci: nat, inclusive: bool): (t: Turn)
    requires di < |ds| && ci < |cs|
    ensures |t.ds| == |ds| && |t.cs| == |cs|
    ensures di <= t.di <= di + 1 && ci <= t.ci <= ci + 1
    // a payment zeroes the smaller side, and the loop moves past it
    ensures t.emitted != [] ==>
      (t.ds[di].balance == 0.0 && t.di == di + 1) || (t.cs[ci].balance == 0.0 && t.ci == ci + 1)
    // a turn that moves neither index pays nothing and changes nothing, so every later
    // turn repeats it: this is the state `Sweep` reports as `None`
    ensures t.di == di && t.ci == ci ==> t.ds == ds && t.cs == cs && t.emitted == []
  {
    var debtor := ds[di];
    var creditor := cs[ci];
    var amount := Min(-debtor.balance, creditor.balance);
    var settle := amount > Threshold;
    var d := if settle then debtor.balance + amount else debtor.balance;
    var c := if settle then creditor.balance - amount else creditor.balance;
    Turn(
      if settle then [Transaction(debtor.personId, creditor.personId, amount)] else [],
      ds[di := debtor.(balance := d)],
      cs[ci := creditor.(balance := c)],
      if Closed(d, inclusive) then di + 1 else di,
      if Closed(c, inclusive) then ci + 1 else ci)
  }

  /** The transactions the sweep emits from the state where `ds` and `cs` hold the
      current debtor and creditor balances and `di`, `ci` are the two indices; `None`
      when it reaches a turn that moves neither index, after which the loop would run
      forever. */
  function Sweep(ds: Balances, cs: Balances, di: nat, ci: nat, inclusive: bool): Option<seq<Transaction>>
    requires di <= |ds| && ci <= |cs|
    decreases |ds| - di + |cs| - ci
  {
    if di == |ds| || ci == |cs| then Some([])
    else
      var t := Step(ds, cs, di, ci, inclusive);
      if t.di == di && t.ci == ci then None
      else
        var rest := Sweep(t.ds, t.cs, t.di, t.ci, inclusive);
        if rest.None? then None else Some(t.emitted + rest.value)
  }

  lemma ConcatAssoc(a: seq<Transaction>, b: seq<Transaction>, c: seq<Transaction>)
    ensures a + (b + c) == (a + b) + c
  {
  }

  /** The result of `simplifyDebts(balances)`; `None` when the loop does not stop. */
  function Plan(m: Balances, inclusive: bool): Option<seq<Transaction>>
  {
    Sweep(Debtors(m), Creditors(m), 0, 0, inclusive)
  }

  // ---------------------------------------------------------------------------
  // What the sweep promises.

  /** What `k` pays in total over `txs`. */
  function Paid(txs: seq<Transaction>, k: string): real
  {
    if |txs| == 0 then 0.0 else (if txs[0].from == k then txs[0].amount else 0.0) + Paid(txs[1..], k)
  }

  /** What `k` receives in total over `txs`. */
  function Received(txs: seq<Transaction>, k: string): real
  {
    if |txs| == 0 then 0.0 else (if txs[0].to == k then txs[0].amount else 0.0) + Received(txs[1..], k)
  }

  /** `k` is the id of one of the entries `s[from..]`. */
  predicate Among(s: Balances, from: nat, k: string)
  {
    exists i :: from <= i < |s| && s[i].personId == k
  }

  /** Every debtor balance is at most 0 and every creditor balance at least 0. */
  predicate Signs(ds: Balances, cs: Balances)
  {
    (forall i :: 0 <= i < |ds| ==> ds[i].balance <= 0.0) && (forall j :: 0 <= j < |cs| ==> cs[j].balance >= 0.0)
  }

  lemma {:induction false} PaidNone(txs: seq<Transaction>, k: string)
    requires forall t :: t in txs ==> t.from != k
    ensures Paid(txs, k) == 0.0
  {
    if |txs| > 0 {
      PaidNone(txs[1..], k);
    }
  }

  lemma {:induction false} ReceivedNone(txs: seq<Transaction>, k: string)
    requires forall t :: t in txs ==> t.to != k
    ensures Received(txs, k) == 0.0
  {
    if |txs| > 0 {
      ReceivedNone(txs[1..], k);
    }
  }

  /** A turn only moves balances towards 0, never past it. */
  lemma StepSigns(ds: Balances, cs: Balances, di: nat, ci: nat, inclusive: bool)
    requires di < |ds| && ci < |cs| && Signs(ds, cs)
    ensures Signs(Step(ds, cs, di, ci, inclusive).ds, Step(ds, cs, di, ci, inclusive).cs)
  {
  }

  /** Every emitted amount exceeds the threshold, and every payment goes from a debtor
      at or after the current index to a creditor at or after the current index. */
  lemma {:induction false} SweepParties(ds: Balances, cs: Balances, di: nat, ci: nat, inclusive: bool)
    requires di <= |ds| && ci <= |cs|
    requires Sweep(ds, cs, di, ci, inclusive).Some?
    ensures forall t :: t in Sweep(ds, cs, di, ci, inclusive).value ==>
      t.amount > Threshold && Among(ds, di, t.from) && Among(cs, ci, t.to)
    decreases |ds| - di + |cs| - ci
  {
    if di < |ds| && ci < |cs| {
      var s := Step(ds, cs, di, ci, inclusive);
      SweepParties(s.ds, s.cs, s.di, s.ci, inclusive);
      forall t | t in Sweep(s.ds, s.cs, s.di, s.ci, inclusive).value
        ensures Among(ds, di, t.from) && Among(cs, ci, t.to)
      {
        var i :| s.di <= i < |s.ds| && s.ds[i].personId == t.from;
        assert ds[i].personId == t.from;
        var j :| s.ci <= j < |s.cs| && s.cs[j].personId == t.to;
        assert cs[j].personId == t.to;
      }
    }
  }

  /** No debtor pays more than it owes when the sweep reaches it. */
  lemma {:induction false} SweepPaid(ds: Balances, cs: Balances, di: nat, ci: nat, inclusive: bool)
    requires di <= |ds| && ci <= |cs|
    requires Sweep(ds, cs, di, ci, inclusive).Some?
    requires Signs(ds, cs) && DistinctKeys(ds)
    ensures forall i :: di <= i < |ds| ==>
      Paid(Sweep(ds, cs, di, ci, inclusive).value, ds[i].personId) <= -ds[i].balance
    decreases |ds| - di + |cs| - ci
  {
    var txs := Sweep(ds, cs, di, ci, inclusive).value;
    if di == |ds| || ci == |cs| {
    } else {
      var s := Step(ds, cs, di, ci, inclusive);
      var rest := Sweep(s.ds, s.cs, s.di, s.ci, inclusive).value;
      StepSigns(ds, cs, di, ci, inclusive);
      assert DistinctKeys(s.ds) by {
        assert forall i :: 0 <= i < |ds| ==> s.ds[i].personId == ds[i].personId;
      }
      SweepPaid(s.ds, s.cs, s.di, s.ci, inclusive);
      SweepParties(s.ds, s.cs, s.di, s.ci, inclusive);
      assert txs == s.emitted + rest;
      var amount := Min(-ds[di].balance, cs[ci].balance);
      forall i | di <= i < |ds| ensures Paid(txs, ds[i].personId) <= -ds[i].balance {
        var k := ds[i].personId;
        var first := if s.emitted != [] && k == ds[di].personId then amount else 0.0;
        if s.emitted != [] {
          assert s.emitted == [Transaction(ds[di].personId, cs[ci].personId, amount)];
          assert txs[0] == s.emitted[0] && txs[1..] == rest;
        } else {
          assert txs == rest;
        }
        assert Paid(txs, k) == first + Paid(rest, k);
        if i != di {
          assert s.ds[i] == ds[i];
        } else if s.di == di {
          assert Paid(rest, k) <= -s.ds[di].balance;
        } else {
          PaidNone(rest, k);
        }
      }
    }
  }

  /** No creditor receives more than it is owed when the sweep reaches it. */
  lemma {:induction false} SweepReceived(ds: Balances, cs: Balances, di: nat, ci: nat, inclusive: bool)
    requires di <= |ds| && ci <= |cs|
    requires Sweep(ds, cs, di, ci, inclusive).Some?
    requires Signs(ds, cs) && DistinctKeys(cs)
    ensures forall j :: ci <= j < |cs| ==>
      Received(Sweep(ds, cs, di, ci, inclusive).value, cs[j].personId) <= cs[j].balance
    decreases |ds| - di + |cs| - ci
  {
    var txs := Sweep(ds, cs, di, ci, inclusive).value;
    if di == |ds| || ci == |cs| {
    } else {
      var s := Step(ds, cs, di, ci, inclusive);
      var rest := Sweep(s.ds, s.cs, s.di, s.ci, inclusive).value;
      StepSigns(ds, cs, di, ci, inclusive);
      assert DistinctKeys(s.cs) by {
        assert forall j :: 0 <= j < |cs| ==> s.cs[j].personId == cs[j].personId;
      }
      SweepReceived(s.ds, s.cs, s.di, s.ci, inclusive);
      SweepParties(s.ds, s.cs, s.di, s.ci, inclusive);
      assert txs == s.emitted + rest;
      var amount := Min(-ds[di].balance, cs[ci].balance);
      forall j | ci <= j < |cs| ensures Received(txs, cs[j].personId) <= cs[j].balance {
        var k := cs[j].personId;
        var first := if s.emitted != [] && k == cs[ci].personId then amount else 0.0;
        if s.emitted != [] {
          assert s.emitted == [Transaction(ds[di].personId, cs[ci].personId, amount)];
          assert txs[0] == s.emitted[0] && txs[1..] == rest;
        } else {
          assert txs == rest;
        }
        assert Received(txs, k) == first + Received(rest, k);
        if j != ci {
          assert s.cs[j] == cs[j];
        } else if s.ci == ci {
          assert Received(rest, k) <= s.cs[ci].balance;
        } else {
          ReceivedNone(rest, k);
        }
      }
    }
  }

  /** Every turn moves at least one index, so the sweep emits fewer transactions than
      there are debtors and creditors left, and nothing once either side is exhausted. */
  lemma {:induction false} SweepLength(ds: Balances, cs: Balances, di: nat, ci: nat, inclusive: bool)
    requires di <= |ds| && ci <= |cs|
    requires Sweep(ds, cs, di, ci, inclusive).Some?
    ensures di == |ds| || ci == |cs| ==> Sweep(ds, cs, di, ci, inclusive).value == []
    ensures di < |ds| && ci < |cs| ==>
      |Sweep(ds, cs, di, ci, inclusive).value| <= (|ds| - di) + (|cs| - ci) - 1
    decreases |ds| - di + |cs| - ci
  {
    if di < |ds| && ci < |cs| {
      var s := Step(ds, cs, di, ci, inclusive);
      SweepLength(s.ds, s.cs, s.di, s.ci, inclusive);
    }
  }

  /** When a side that reaches the threshold counts as closed, every turn moves an
      index, so the sweep always stops. */
  lemma {:induction false} InclusiveSweepStops(ds: Balances, cs: Balances, di: nat, ci: nat)
    requires di <= |ds| && ci <= |cs|
    requires Signs(ds, cs)
    ensures Sweep(ds, cs, di, ci, true).Some?
    decreases |ds| - di + |cs| - ci
  {
    if di < |ds| && ci < |cs| {
      var s := Step(ds, cs, di, ci, true);
      StepSigns(ds, cs, di, ci, true);
      InclusiveSweepStops(s.ds, s.cs, s.di, s.ci);
    }
  }

  /** What `k` still owes according to `m`, if it counts as a debtor. */
  function Debt(m: Balances, k: string): real
  {
    if Get(m, k) < -Threshold then -Get(m, k) else 0.0
  }

  /** What `k` is still owed according to `m`, if it counts as a creditor. */
  function Credit(m: Balances, k: string): real
  {
    if Get(m, k) > Threshold then Get(m, k) else 0.0
  }

  lemma GetMember(m: Balances, x: Entry)
    requires DistinctKeys(m) && x in m
    ensures Get(m, x.personId) == x.balance
  {
    var i :| 0 <= i < |m| && m[i] == x;
    GetEntry(m, i);
  }

  /** The facts about the two sorted sides that the sweep's lemmas need. */
  lemma Sides(m: Balances)
    requires DistinctKeys(m)
    ensures forall i :: 0 <= i < |Debtors(m)| ==> Get(m, Debtors(m)[i].personId) == Debtors(m)[i].balance < -Threshold
    ensures forall j :: 0 <= j < |Creditors(m)| ==> Get(m, Creditors(m)[j].personId) == Creditors(m)[j].balance > Threshold
    ensures Signs(Debtors(m), Creditors(m))
    ensures DistinctKeys(Debtors(m)) && DistinctKeys(Creditors(m))
  {
    var ds, cs := Debtors(m), Creditors(m);
    DebtorsSpec(m);
    CreditorsSpec(m);
    FilterDistinct(m, IsOutstanding);
    FilterDistinct(Outstanding(m), IsDebtor);
    FilterDistinct(Outstanding(m), IsCreditor);
    SortDistinct(Filter(Outstanding(m), IsDebtor), false);
    SortDistinct(Filter(Outstanding(m), IsCreditor), true);
    forall i | 0 <= i < |ds| ensures Get(m, ds[i].personId) == ds[i].balance < -Threshold {
      assert ds[i] in ds;
      GetMember(m, ds[i]);
    }
    forall j | 0 <= j < |cs| ensures Get(m, cs[j].personId) == cs[j].balance > Threshold {
      assert cs[j] in cs;
      GetMember(m, cs[j]);
    }
  }

  /** Each payment in the plan exceeds the threshold and goes from someone who owes
      more than the threshold to someone else who is owed more than it. */
  lemma PlanParties(m: Balances, inclusive: bool)
    requires DistinctKeys(m) && Plan(m, inclusive).Some?
    ensures forall t :: t in Plan(m, inclusive).value ==>
      t.amount > Threshold && Get(m, t.from) < -Threshold && Get(m, t.to) > Threshold && t.from != t.to
  {
    var ds, cs := Debtors(m), Creditors(m);
    Sides(m);
    SweepParties(ds, cs, 0, 0, inclusive);
    forall t | t in Plan(m, inclusive).value
      ensures Get(m, t.from) < -Threshold && Get(m, t.to) > Threshold
    {
      var i :| 0 <= i < |ds| && ds[i].personId == t.from;
      var j :| 0 <= j < |cs| && cs[j].personId == t.to;
    }
  }

  /** Nobody pays more in the plan than they owe, and nobody receives more than
      they are owed. */
  lemma PlanBounded(m: Balances, inclusive: bool)
    requires DistinctKeys(m) && Plan(m, inclusive).Some?
    ensures forall k :: Paid(Plan(m, inclusive).value, k) <= Debt(m, k)
    ensures forall k :: Received(Plan(m, inclusive).value, k) <= Credit(m, k)
  {
    var ds, cs := Debtors(m), Creditors(m);
    var txs := Plan(m, inclusive).value;
    Sides(m);
    SweepParties(ds, cs, 0, 0, inclusive);
    SweepPaid(ds, cs, 0, 0, inclusive);
    SweepReceived(ds, cs, 0, 0, inclusive);
    forall k ensures Paid(txs, k) <= Debt(m, k) {
      if i :| 0 <= i < |ds| && ds[i].personId == k {
      } else {
        PaidNone(txs, k);
      }
    }
    forall k ensures Received(txs, k) <= Credit(m, k) {
      if j :| 0 <= j < |cs| && cs[j].personId == k {
      } else {
        ReceivedNone(txs, k);
      }
    }
  }

  /** The plan has fewer transactions than there are people with a balance, and is
      empty when nobody owes or nobody is owed more than the threshold. */
  lemma PlanLength(m: Balances, inclusive: bool)
    requires Plan(m, inclusive).Some?
    ensures |Plan(m, inclusive).value| < |m| || Plan(m, inclusive).value == []
    ensures (forall x :: x in m ==> x.balance >= -Threshold) ==> Plan(m, inclusive).value == []
    ensures (forall x :: x in m ==> x.balance <= Threshold) ==> Plan(m, inclusive).value == []
  {
    var ds, cs := Debtors(m), Creditors(m);
    DebtorsSpec(m);
    CreditorsSpec(m);
    SweepLength(ds, cs, 0, 0, inclusive);
    PartiesFit(m);
    if |ds| > 0 {
      assert ds[0] in ds;
    }
    if |cs| > 0 {
      assert cs[0] in cs;
    }
  }

  /** `simplifyDebts` as written. Over exact reals its loop stops unless a debtor or
      creditor is left at exactly the threshold, which the precondition excludes. */
  method SimplifyDebts(balances: Balances) returns (transactions: seq<Transaction>)
    requires Plan(balances, false).Some?
    ensures transactions == Plan(balances, false).value
    ensures DistinctKeys(balances) ==> forall t :: t in transactions ==>
      t.amount > Threshold && Get(balances, t.from) < -Threshold && Get(balances, t.to) > Threshold
    ensures DistinctKeys(balances) ==> forall k :: Paid(transactions, k) <= Debt(balances, k)
    ensures DistinctKeys(balances) ==> forall k :: Received(transactions, k) <= Credit(balances, k)
    ensures |transactions| < |balances| || transactions == []
  {
    var ds := Debtors(balances);
    var cs := Creditors(balances);
    var debtors := new Entry[|ds|](i requires 0 <= i < |ds| => ds[i]);
    var creditors := new Entry[|cs|](i requires 0 <= i < |cs| => cs[i]);
    assert debtors[..] == ds && creditors[..] == cs;
    transactions := Settle(debtors, creditors, false);
    if DistinctKeys(balances) {
      PlanParties(balances, false);
      PlanBounded(balances, false);
    }
    PlanLength(balances, false);
  }

  /** The loop of `simplifyDebts`: walks the sorted debtors and creditors with two
      indices, updating their balances in place. */
  method Settle(debtors: array<Entry>, creditors: array<Entry>, inclusive: bool)
    returns (transactions: seq<Transaction>)
    requires debtors != creditors
    requires Sweep(debtors[..], creditors[..], 0, 0, inclusive).Some?
    modifies debtors, creditors
    ensures transactions == Sweep(old(debtors[..]), old(creditors[..]), 0, 0, inclusive).value
  {
    ghost var plan := Sweep(debtors[..], creditors[..], 0, 0, inclusive).value;
    transactions := [];
    var debtorIndex, creditorIndex := 0, 0;
    while debtorIndex < debtors.Length && creditorIndex < creditors.Length
      invariant debtorIndex <= debtors.Length && creditorIndex <= creditors.Length
      invariant Sweep(debtors[..], creditors[..], debtorIndex, creditorIndex, inclusive).Some?
      invariant plan == transactions + Sweep(debtors[..], creditors[..], debtorIndex, creditorIndex, inclusive).value
      decreases debtors.Length - debtorIndex + creditors.Length - creditorIndex
    {
      ghost var t := Step(debtors[..], creditors[..], debtorIndex, creditorIndex, inclusive);
      ghost var done := transactions;
      var debtor := debtors[debtorIndex];
      var creditor := creditors[creditorIndex];
      var amountToSettle := Min(-debtor.balance, creditor.balance);
      if amountToSettle > Threshold {
        transactions := transactions + [Transaction(debtor.personId, creditor.personId, amountToSettle)];
        debtors[debtorIndex] := debtor.(balance := debtor.balance + amountToSettle);
        creditors[creditorIndex] := creditor.(balance := creditor.balance - amountToSettle);
      }
      if Closed(debtors[debtorIndex].balance, inclusive) {
        debtorIndex := debtorIndex + 1;
      }
      if Closed(creditors[creditorIndex].balance, inclusive) {
        creditorIndex := creditorIndex + 1;
      }
      assert t.ds == debtors[..] && t.cs == creditors[..];
      assert t.di == debtorIndex && t.ci == creditorIndex;
      assert transactions == done + t.emitted;
      ConcatAssoc(done, t.emitted, Sweep(t.ds, t.cs, t.di, t.ci, inclusive).value);
    }
  }

  // ---------------------------------------------------------------------------
  // The threshold stall.

  /** The sweep with a side closed at `|b| <= threshold` stops on every map. */
  lemma CorrectedPlanStops(m: Balances)
    ensures Plan(m, true).Some?
  {
    DebtorsSpec(m);
    CreditorsSpec(m);
    var ds, cs := Debtors(m), Creditors(m);
    assert Signs(ds, cs) by {
      assert forall i :: 0 <= i < |ds| ==> ds[i] in ds;
      assert forall j :: 0 <= j < |cs| ==> cs[j] in cs;
    }
    InclusiveSweepStops(ds, cs, 0, 0);
  }

  /** `simplifyDebts` with the sweep moving on once a side is within the threshold,
      the comparison the outstanding filter uses: it needs no precondition. */
  method SimplifyDebtsCorrected(balances: Balances) returns (transactions: seq<Transaction>)
    ensures Plan(balances, true).Some? && transactions == Plan(balances, true).value
    ensures DistinctKeys(balances) ==> forall t :: t in transactions ==>
      t.amount > Threshold && Get(balances, t.from) < -Threshold && Get(balances, t.to) > Threshold
    ensures DistinctKeys(balances) ==> forall k :: Paid(transactions, k) <= Debt(balances, k)
    ensures DistinctKeys(balances) ==> forall k :: Received(transactions, k) <= Credit(balances, k)
    ensures |transactions| < |balances| || transactions == []
  {
    CorrectedPlanStops(balances);
    if DistinctKeys(balances) {
      PlanParties(balances, true);
      PlanBounded(balances, true);
    }
    PlanLength(balances, true);
    var ds := Debtors(balances);
    var cs := Creditors(balances);
    var debtors := new Entry[|ds|](i requires 0 <= i < |ds| => ds[i]);
    var creditors := new Entry[|cs|](i requires 0 <= i < |cs| => cs[i]);
    assert debtors[..] == ds && creditors[..] == cs;
    transactions := Settle(debtors, creditors, true);
  }
}
