/** Worked cases of the two engine functions, from expenses to settlement plan. */
module Scenarios {
  import opened Types
  import opened BalanceMap
  import opened Balances
  import opened Settlement

  // ---------------------------------------------------------------------------
  // Filtering and sorting short maps.

  lemma FilterThree(s: seq<Entry>, keep: Entry -> bool)
    requires |s| == 3
    ensures Filter(s, keep) == (if keep(s[0]) then [s[0]] else []) + (if keep(s[1]) then [s[1]] else [])
                               + (if keep(s[2]) then [s[2]] else [])
  {
    var s1, s2 := s[1..], s[2..];
    assert s1[1..] == s2 && s2[1..] == [] && s1[0] == s[1] && s2[0] == s[2];
    assert Filter(s2, keep) == (if keep(s[2]) then [s[2]] else []) + Filter([], keep);
    assert Filter(s1, keep) == (if keep(s[1]) then [s[1]] else []) + Filter(s2, keep);
    assert Filter(s, keep) == (if keep(s[0]) then [s[0]] else []) + Filter(s1, keep);
  }

  lemma SortTwo(s: seq<Entry>, descending: bool)
    requires |s| == 2
    ensures SortBy(s, descending) == if Key(s[0], descending) <= Key(s[1], descending) then s else [s[1], s[0]]
  {
    var r := [s[0]];
    assert s[..1] == r && r[..0] == [];
    assert SortBy(r, descending) == r;
    assert SortBy(s, descending) == Insert(r, s[1], descending);
    if Key(s[0], descending) <= Key(s[1], descending) {
      assert r + [s[1]] == s;
    } else {
      assert Insert(r, s[1], descending) == Insert([], s[1], descending) + [s[0]];
    }
  }

  lemma SortOne(s: seq<Entry>, descending: bool)
    requires |s| == 1
    ensures SortBy(s, descending) == s
  {
    assert s[..0] == [];
  }

  // ---------------------------------------------------------------------------
  // One payer covering a meal split three ways.

  function Trio(): seq<Participant>
  {
    [Participant("A", "Ann"), Participant("B", "Ben"), Participant("C", "Cat")]
  }

  /** A pays 90 for A, B and C. */
  function Dinner(): Expense
  {
    Expense("x", "dinner", 90.0, "A", ["A", "B", "C"])
  }

  /** Every participant opens at 0, in participant order. */
  lemma TrioOpening()
    ensures Opening(Trio()) == [Entry("A", 0.0), Entry("B", 0.0), Entry("C", 0.0)]
  {
    var ps := Trio();
    var o1 := [Entry("A", 0.0)];
    var o2 := o1 + [Entry("B", 0.0)];
    assert ps[..1][..0] == [];
    assert Opening(ps[..1]) == Put([], "A", 0.0) == o1;
    assert ps[..2][..1] == ps[..1];
    assert Ids(o1) == ["A"];
    PutNew(o1, "B", 0.0);
    assert Opening(ps[..2]) == o2;
    assert ps[..3][..2] == ps[..2] && ps[..3] == ps;
    assert Ids(o2) == ["A", "B"];
    PutNew(o2, "C", 0.0);
  }

  /** Debiting 30 from A and then from B. */
  lemma DinnerFirstDebits(credited: seq<Entry>, ids: seq<string>)
    requires credited == [Entry("A", 90.0), Entry("B", 0.0), Entry("C", 0.0)] && ids == ["A", "B"]
    ensures Debit(credited, ids, 30.0) == [Entry("A", 60.0), Entry("B", -30.0), Entry("C", 0.0)]
  {
    var d1 := [Entry("A", 60.0), Entry("B", 0.0), Entry("C", 0.0)];
    assert ids[..1][..0] == [];
    GetEntry(credited, 0);
    PutExisting(credited, 0, 60.0);
    assert Debit(credited, ids[..1], 30.0) == d1;
    GetEntry(d1, 1);
    PutExisting(d1, 1, -30.0);
  }

  /** Debiting 30 from each of A, B and C, one after another. */
  lemma DinnerDebits(credited: seq<Entry>, ids: seq<string>)
    requires credited == [Entry("A", 90.0), Entry("B", 0.0), Entry("C", 0.0)] && ids == ["A", "B", "C"]
    ensures Debit(credited, ids, 30.0) == [Entry("A", 60.0), Entry("B", -30.0), Entry("C", -30.0)]
  {
    var d2 := [Entry("A", 60.0), Entry("B", -30.0), Entry("C", 0.0)];
    DinnerFirstDebits(credited, ids[..2]);
    GetEntry(d2, 2);
    PutExisting(d2, 2, -30.0);
  }

  /** The payer is credited 90 and each of the three sharers debited 30. */
  lemma DinnerLedger()
    ensures Ledger(Trio(), [Dinner()]) == [Entry("A", 60.0), Entry("B", -30.0), Entry("C", -30.0)]
  {
    var e := Dinner();
    var es := [e];
    var o := [Entry("A", 0.0), Entry("B", 0.0), Entry("C", 0.0)];
    var credited := [Entry("A", 90.0), Entry("B", 0.0), Entry("C", 0.0)];
    TrioOpening();
    assert Ledger(Trio(), []) == o;
    assert es[..|es| - 1] == [] && es[|es| - 1] == e;
    assert Ledger(Trio(), es) == Apply(Ledger(Trio(), []), e);
    assert IsValid(e) && |e.participantIds| == 3;
    assert Share(e) == 90.0 / 3.0 == 30.0;
    GetEntry(o, 0);
    PutExisting(o, 0, 90.0);
    assert o[0 := Entry("A", 90.0)] == credited;
    assert Apply(o, e) == Debit(credited, e.participantIds, 30.0);
    DinnerDebits(credited, e.participantIds);
  }

  /** Both of A, B and C are outstanding at 60 and -30. */
  lemma DinnerOutstanding(m: seq<Entry>)
    requires m == [Entry("A", 60.0), Entry("B", -30.0), Entry("C", -30.0)]
    ensures Outstanding(m) == m
  {
    assert IsOutstanding(m[0]) && IsOutstanding(m[1]) && IsOutstanding(m[2]);
    FilterThree(m, IsOutstanding);
  }

  /** The debtors B and C, tied at -30, keep their map order. */
  lemma DinnerDebtors(m: seq<Entry>)
    requires m == [Entry("A", 60.0), Entry("B", -30.0), Entry("C", -30.0)]
    ensures Debtors(m) == [m[1], m[2]]
  {
    var o := m;
    DinnerOutstanding(m);
    assert !IsDebtor(o[0]) && IsDebtor(o[1]) && IsDebtor(o[2]);
    FilterThree(o, IsDebtor);
    SortTwo([m[1], m[2]], false);
  }

  /** A is the only creditor. */
  lemma DinnerCreditors(m: seq<Entry>)
    requires m == [Entry("A", 60.0), Entry("B", -30.0), Entry("C", -30.0)]
    ensures Creditors(m) == [m[0]]
  {
    var o := m;
    DinnerOutstanding(m);
    assert IsCreditor(o[0]) && !IsCreditor(o[1]) && !IsCreditor(o[2]);
    FilterThree(o, IsCreditor);
    SortOne([m[0]], true);
  }

  /** The two sides of the dinner balances. */
  lemma DinnerSides(m: seq<Entry>)
    requires m == [Entry("A", 60.0), Entry("B", -30.0), Entry("C", -30.0)]
    ensures Debtors(m) == [m[1], m[2]] && Creditors(m) == [m[0]]
  {
    DinnerDebtors(m);
    DinnerCreditors(m);
  }


  /** B pays A 30, which closes B; then C pays A 30, which closes both sides at once. */
  lemma DinnerSweep(ds: seq<Entry>, cs: seq<Entry>)
    requires ds == [Entry("B", -30.0), Entry("C", -30.0)] && cs == [Entry("A", 60.0)]
    ensures Sweep(ds, cs, 0, 0, false) == Some([Transaction("B", "A", 30.0), Transaction("C", "A", 30.0)])
  {
    var t := Step(ds, cs, 0, 0, false);
    assert Min(30.0, 60.0) == 30.0;
    assert t.emitted == [Transaction("B", "A", 30.0)];
    assert t.ds == [Entry("B", 0.0), ds[1]] && t.cs == [Entry("A", 30.0)] && t.di == 1 && t.ci == 0;
    var u := Step(t.ds, t.cs, 1, 0, false);
    assert Min(30.0, 30.0) == 30.0;
    assert u.emitted == [Transaction("C", "A", 30.0)];
    assert u.di == 2 && u.ci == 1;
    assert Sweep(u.ds, u.cs, 2, 1, false) == Some([]);
    assert Sweep(t.ds, t.cs, 1, 0, false) == Some(u.emitted + []);
    assert Sweep(ds, cs, 0, 0, false) == Some(t.emitted + (u.emitted + []));
    assert t.emitted + (u.emitted + []) == [Transaction("B", "A", 30.0), Transaction("C", "A", 30.0)];
  }

  /** The plan for the dinner: B and C each pay A 30. */
  lemma DinnerPlan()
    ensures Plan(Ledger(Trio(), [Dinner()]), false)
            == Some([Transaction("B", "A", 30.0), Transaction("C", "A", 30.0)])
  {
    var m := Ledger(Trio(), [Dinner()]);
    DinnerLedger();
    DinnerSides(m);
    DinnerSweep([m[1], m[2]], [m[0]]);
  }

  // ---------------------------------------------------------------------------
  // One debtor owing two creditors.

  /** All of A, B and C are outstanding at -2 and 1. */
  lemma SplitCreditOutstanding(m: seq<Entry>)
    requires m == [Entry("A", -2.0), Entry("B", 1.0), Entry("C", 1.0)]
    ensures Outstanding(m) == m
  {
    assert IsOutstanding(m[0]) && IsOutstanding(m[1]) && IsOutstanding(m[2]);
    FilterThree(m, IsOutstanding);
  }

  /** A is the only debtor. */
  lemma SplitCreditDebtors(m: seq<Entry>)
    requires m == [Entry("A", -2.0), Entry("B", 1.0), Entry("C", 1.0)]
    ensures Debtors(m) == [m[0]]
  {
    var o := m;
    SplitCreditOutstanding(m);
    assert IsDebtor(o[0]) && !IsDebtor(o[1]) && !IsDebtor(o[2]);
    FilterThree(o, IsDebtor);
    SortOne([m[0]], false);
  }

  /** The creditors B and C, tied at 1, keep their map order. */
  lemma SplitCreditCreditors(m: seq<Entry>)
    requires m == [Entry("A", -2.0), Entry("B", 1.0), Entry("C", 1.0)]
    ensures Creditors(m) == [m[1], m[2]]
  {
    var o := m;
    SplitCreditOutstanding(m);
    assert !IsCreditor(o[0]) && IsCreditor(o[1]) && IsCreditor(o[2]);
    FilterThree(o, IsCreditor);
    SortTwo([m[1], m[2]], true);
  }

  /** The two sides of the split-credit balances. */
  lemma SplitCreditSides(m: seq<Entry>)
    requires m == [Entry("A", -2.0), Entry("B", 1.0), Entry("C", 1.0)]
    ensures Debtors(m) == [m[0]] && Creditors(m) == [m[1], m[2]]
  {
    SplitCreditDebtors(m);
    SplitCreditCreditors(m);
  }


  /** A owes 2, and B and C are each owed 1: one debtor, two creditors, and two
      transactions, so the plan can be longer than the smaller of the two sides. */
  lemma OneDebtorTwoCreditors(m: seq<Entry>)
    requires m == [Entry("A", -2.0), Entry("B", 1.0), Entry("C", 1.0)]
    ensures Plan(m, false) == Some([Transaction("A", "B", 1.0), Transaction("A", "C", 1.0)])
    ensures |Debtors(m)| == 1 && |Creditors(m)| == 2 && |Plan(m, false).value| == 2
  {
    SplitCreditSides(m);
    var ds, cs := [m[0]], [m[1], m[2]];
    var t := Step(ds, cs, 0, 0, false);
    assert Min(2.0, 1.0) == 1.0;
    assert t.emitted == [Transaction("A", "B", 1.0)];
    assert t.ds == [Entry("A", -1.0)] && t.cs == [Entry("B", 0.0), cs[1]] && t.di == 0 && t.ci == 1;
    var u := Step(t.ds, t.cs, 0, 1, false);
    assert Min(1.0, 1.0) == 1.0;
    assert u.emitted == [Transaction("A", "C", 1.0)];
    assert u.di == 1 && u.ci == 2;
    assert Sweep(u.ds, u.cs, 1, 2, false) == Some([]);
    assert Sweep(t.ds, t.cs, 0, 1, false) == Some(u.emitted + []);
    assert Sweep(ds, cs, 0, 0, false) == Some(t.emitted + (u.emitted + []));
    assert t.emitted + (u.emitted + []) == [Transaction("A", "B", 1.0), Transaction("A", "C", 1.0)];
  }

  // ---------------------------------------------------------------------------
  // A debtor left at exactly the threshold.

  lemma StallOutstanding(m: seq<Entry>, rest: seq<Entry>)
    requires m == [Entry("A", -0.024), Entry("B", 0.014), Entry("C", 0.012), Entry("D", -0.002)]
    requires rest == m[1..]
    ensures Outstanding(m) == [m[0], m[1], m[2]]
  {
    assert IsOutstanding(m[0]) && IsOutstanding(rest[0]) && IsOutstanding(rest[1]) && !IsOutstanding(rest[2]);
    FilterThree(rest, IsOutstanding);
    assert Filter(rest, IsOutstanding) == [m[1], m[2]];
  }

  /** A is the only debtor; D, at -0.002, is dropped. */
  lemma StallDebtors(m: seq<Entry>)
    requires m == [Entry("A", -0.024), Entry("B", 0.014), Entry("C", 0.012), Entry("D", -0.002)]
    ensures Debtors(m) == [m[0]]
  {
    var o := [m[0], m[1], m[2]];
    StallOutstanding(m, m[1..]);
    assert IsDebtor(o[0]) && !IsDebtor(o[1]) && !IsDebtor(o[2]);
    FilterThree(o, IsDebtor);
    SortOne([m[0]], false);
  }

  /** The creditors are B, then C. */
  lemma StallCreditors(m: seq<Entry>)
    requires m == [Entry("A", -0.024), Entry("B", 0.014), Entry("C", 0.012), Entry("D", -0.002)]
    ensures Creditors(m) == [m[1], m[2]]
  {
    var o := [m[0], m[1], m[2]];
    StallOutstanding(m, m[1..]);
    assert !IsCreditor(o[0]) && IsCreditor(o[1]) && IsCreditor(o[2]);
    FilterThree(o, IsCreditor);
    SortTwo([m[1], m[2]], true);
  }

  /** The two sides of the stall balances. */
  lemma StallSides(m: seq<Entry>)
    requires m == [Entry("A", -0.024), Entry("B", 0.014), Entry("C", 0.012), Entry("D", -0.002)]
    ensures Debtors(m) == [m[0]] && Creditors(m) == [m[1], m[2]]
  {
    StallDebtors(m);
    StallCreditors(m);
  }


  /** A pays B 0.014 and is left at exactly -0.01 facing C at 0.012: the settled amount
      0.01 is not above the threshold, and neither side is below it, so the loop as
      written makes no progress and never stops. */
  lemma StallAsWritten(m: seq<Entry>)
    requires m == [Entry("A", -0.024), Entry("B", 0.014), Entry("C", 0.012), Entry("D", -0.002)]
    ensures Plan(m, false).None?
  {
    StallSides(m);
    var ds, cs := [m[0]], [m[1], m[2]];
    var t := Step(ds, cs, 0, 0, false);
    assert Min(0.024, 0.014) == 0.014;
    assert t.ds == [Entry("A", -0.01)] && t.cs[1] == cs[1] && t.di == 0 && t.ci == 1;
    var u := Step(t.ds, t.cs, 0, 1, false);
    assert Min(0.01, 0.012) == 0.01;
    assert u.di == 0 && u.ci == 1;
    assert Sweep(t.ds, t.cs, 0, 1, false).None?;
  }

  /** On the same map the corrected sweep closes A at exactly the threshold, together
      with B, and stops after the one payment. */
  lemma StallCorrected(m: seq<Entry>)
    requires m == [Entry("A", -0.024), Entry("B", 0.014), Entry("C", 0.012), Entry("D", -0.002)]
    ensures Plan(m, true) == Some([Transaction("A", "B", 0.014)])
  {
    StallSides(m);
    var ds, cs := [m[0]], [m[1], m[2]];
    var t := Step(ds, cs, 0, 0, true);
    assert Min(0.024, 0.014) == 0.014;
    assert t.emitted == [Transaction("A", "B", 0.014)];
    assert t.di == 1 && t.ci == 1;
    assert Sweep(t.ds, t.cs, 1, 1, true) == Some([]);
    assert t.emitted + [] == t.emitted;
  }
}
