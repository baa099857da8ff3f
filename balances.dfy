/** `calculateBalances` (src/lib/debt-calculator.ts): folds the expenses of an event into
    each participant's net balance. */
module Balances {
  import opened Types
  import opened BalanceMap

  /** The guard of the expense loop: an expense without payer, with a non-positive
      amount or with nobody sharing it is skipped. */
  predicate IsValid(e: Expense)
  {
    e.payerId != "" && e.amount > 0.0 && |e.participantIds| > 0
  }

  /** What each sharer of a valid expense is debited: an equal share of the amount. */
  function Share(e: Expense): real
    requires |e.participantIds| > 0
  {
    e.amount / (|e.participantIds| as real)
  }

  /** How often `k` is listed in `ids`. */
  function Count(ids: seq<string>, k: string): nat
  {
    if |ids| == 0 then 0 else Count(ids[..|ids| - 1], k) + (if ids[|ids| - 1] == k then 1 else 0)
  }

  /** `n` shares of `x` each, added up one by one. */
  function Times(n: nat, x: real): real
  {
    if n == 0 then 0.0 else Times(n - 1, x) + x
  }

  /** Adding up one share per sharer gives back the whole amount. */
  lemma {:induction false} SharesAddUp(e: Expense)
    requires |e.participantIds| > 0
    ensures Times(|e.participantIds|, Share(e)) == e.amount
  {
    var n := |e.participantIds|;
    TimesIsProduct(n, Share(e));
    assert (n as real) * (e.amount / (n as real)) == e.amount;
  }

  lemma {:induction false} TimesIsProduct(n: nat, x: real)
    ensures Times(n, x) == (n as real) * x
  {
    if n > 0 {
      TimesIsProduct(n - 1, x);
    }
  }

  /** Reference definition of what one expense does to the balance of `k`: the payer
      gains the amount, and every listing of `k` among the sharers costs one share. */
  function Effect(e: Expense, k: string): real
  {
    if !IsValid(e) then 0.0
    else (if k == e.payerId then e.amount else 0.0) - Times(Count(e.participantIds, k), Share(e))
  }

  /** Reference definition of the net balance of `k`: the sum of the effects of all
      expenses. */
  function Net(es: seq<Expense>, k: string): real
  {
    if |es| == 0 then 0.0 else Net(es[..|es| - 1], k) + Effect(es[|es| - 1], k)
  }

  /** The ids an expense adds to the map: its payer and its sharers, when it is valid. */
  function Touched(e: Expense): set<string>
  {
    if IsValid(e) then {e.payerId} + set k | k in e.participantIds else {}
  }

  function ParticipantIds(ps: seq<Participant>): set<string>
  {
    set p | p in ps :: p.id
  }

  /** `new Map(participants.map(p => [p.id, 0]))`: every participant at 0. */
  function Opening(ps: seq<Participant>): (r: Balances)
    ensures DistinctKeys(r)
    ensures forall k :: Get(r, k) == 0.0
    ensures forall k :: k in Ids(r) <==> k in ParticipantIds(ps)
    ensures Sum(r) == 0.0
  {
    if |ps| == 0 then []
    else
      var before := Opening(ps[..|ps| - 1]);
      PutIds(before, ps[|ps| - 1].id, 0.0);
      PutSum(before, ps[|ps| - 1].id, 0.0);
      PutDistinct(before, ps[|ps| - 1].id, 0.0);
      assert ps == ps[..|ps| - 1] + [ps[|ps| - 1]];
      Put(before, ps[|ps| - 1].id, 0.0)
  }

  /** The inner loop: each listed sharer is debited `share`, in order. */
  function Debit(m: Balances, ids: seq<string>, share: real): Balances
  {
    if |ids| == 0 then m
    else
      var before := Debit(m, ids[..|ids| - 1], share);
      var k := ids[|ids| - 1];
      Put(before, k, Get(before, k) - share)
  }

  /** Debiting takes one share from `k` per listing of `k`. */
  lemma {:induction false} DebitGet(m: Balances, ids: seq<string>, share: real, k: string)
    ensures Get(Debit(m, ids, share), k) == Get(m, k) - Times(Count(ids, k), share)
  {
    if |ids| > 0 {
      DebitGet(m, ids[..|ids| - 1], share, k);
    }
  }

  /** Debiting lowers the sum of the map by one share per listing. */
  lemma {:induction false} DebitSum(m: Balances, ids: seq<string>, share: real)
    ensures Sum(Debit(m, ids, share)) == Sum(m) - Times(|ids|, share)
  {
    if |ids| > 0 {
      var init, last := ids[..|ids| - 1], ids[|ids| - 1];
      DebitSum(m, init, share);
      var before := Debit(m, init, share);
      PutSum(before, last, Get(before, last) - share);
    }
  }

  /** Debiting adds exactly the listed sharers that were missing as keys. */
  lemma {:induction false} DebitKeys(m: Balances, ids: seq<string>, share: real)
    ensures forall k :: k in Ids(Debit(m, ids, share)) <==> k in Ids(m) || k in ids
  {
    if |ids| > 0 {
      var init, last := ids[..|ids| - 1], ids[|ids| - 1];
      DebitKeys(m, init, share);
      var before := Debit(m, init, share);
      PutIds(before, last, Get(before, last) - share);
      assert ids == init + [last];
    }
  }

  /** Debiting keeps the existing keys in their places. */
  lemma {:induction false} DebitOrder(m: Balances, ids: seq<string>, share: real)
    ensures |Ids(m)| <= |Ids(Debit(m, ids, share))|
    ensures Ids(Debit(m, ids, share))[..|Ids(m)|] == Ids(m)
  {
    if |ids| > 0 {
      var init, last := ids[..|ids| - 1], ids[|ids| - 1];
      DebitOrder(m, init, share);
      var before := Debit(m, init, share);
      var after := Debit(m, ids, share);
      var b, n := Ids(before), |Ids(m)|;
      PutIds(before, last, Get(before, last) - share);
      assert Ids(after)[..|b|] == b;
      assert Ids(after)[..n] == b[..n];
    }
  }

  /** Debiting never repeats a key. */
  lemma {:induction false} DebitDistinct(m: Balances, ids: seq<string>, share: real)
    requires DistinctKeys(m)
    ensures DistinctKeys(Debit(m, ids, share))
  {
    if |ids| > 0 {
      var init, last := ids[..|ids| - 1], ids[|ids| - 1];
      DebitDistinct(m, init, share);
      var before := Debit(m, init, share);
      PutDistinct(before, last, Get(before, last) - share);
    }
  }

  /** One pass of the outer loop: a valid expense credits its payer with the full amount
      and then debits its sharers; an invalid one changes nothing. */
  function Apply(m: Balances, e: Expense): Balances
  {
    if !IsValid(e) then m
    else Debit(Put(m, e.payerId, Get(m, e.payerId) + e.amount), e.participantIds, Share(e))
  }

  /** One expense moves the balance of every id by exactly its effect on that id. */
  lemma ApplyGet(m: Balances, e: Expense, k: string)
    ensures Get(Apply(m, e), k) == Get(m, k) + Effect(e, k)
  {
    if IsValid(e) {
      DebitGet(Put(m, e.payerId, Get(m, e.payerId) + e.amount), e.participantIds, Share(e), k);
    }
  }

  /** One expense leaves the sum of all balances unchanged. */
  lemma ApplySum(m: Balances, e: Expense)
    ensures Sum(Apply(m, e)) == Sum(m)
  {
    if IsValid(e) {
      PutSum(m, e.payerId, Get(m, e.payerId) + e.amount);
      DebitSum(Put(m, e.payerId, Get(m, e.payerId) + e.amount), e.participantIds, Share(e));
      SharesAddUp(e);
    }
  }

  /** One expense adds exactly the ids it touches to the keys. */
  lemma ApplyKeys(m: Balances, e: Expense)
    ensures forall k :: k in Ids(Apply(m, e)) <==> k in Ids(m) || k in Touched(e)
  {
    if IsValid(e) {
      var credited := Put(m, e.payerId, Get(m, e.payerId) + e.amount);
      PutIds(m, e.payerId, Get(m, e.payerId) + e.amount);
      DebitKeys(credited, e.participantIds, Share(e));
    }
  }

  /** One expense keeps the existing keys in place and never repeats a key. */
  lemma ApplyOrder(m: Balances, e: Expense)
    ensures |Ids(m)| <= |Ids(Apply(m, e))| && Ids(Apply(m, e))[..|Ids(m)|] == Ids(m)
    ensures DistinctKeys(m) ==> DistinctKeys(Apply(m, e))
  {
    if IsValid(e) {
      var v := Get(m, e.payerId) + e.amount;
      var credited := Put(m, e.payerId, v);
      var c, n := Ids(credited), |Ids(m)|;
      PutIds(m, e.payerId, v);
      DebitOrder(credited, e.participantIds, Share(e));
      assert c[..n] == Ids(m);
      assert Ids(Apply(m, e))[..n] == c[..n];
      if DistinctKeys(m) {
        PutDistinct(m, e.payerId, v);
        DebitDistinct(credited, e.participantIds, Share(e));
      }
    }
  }

  /** The result of `calculateBalances(participants, expenses)`. */
  function Ledger(ps: seq<Participant>, es: seq<Expense>): (r: Balances)
  {
    if |es| == 0 then Opening(ps) else Apply(Ledger(ps, es[..|es| - 1]), es[|es| - 1])
  }

  /** The ledger agrees with the reference definition: every key is a participant or
      an id touched by a valid expense, keys are not repeated, every balance is the
      net of all expense effects, and the balances sum to zero. */
  lemma {:induction false} LedgerIsNet(ps: seq<Participant>, es: seq<Expense>)
    ensures DistinctKeys(Ledger(ps, es))
    ensures forall k :: Get(Ledger(ps, es), k) == Net(es, k)
    ensures forall k :: k in Ids(Ledger(ps, es)) <==>
      k in ParticipantIds(ps) || exists e :: e in es && k in Touched(e)
    ensures Sum(Ledger(ps, es)) == 0.0
  {
    if |es| > 0 {
      var init := es[..|es| - 1];
      LedgerIsNet(ps, init);
      var before, e := Ledger(ps, init), es[|es| - 1];
      ApplySum(before, e);
      ApplyKeys(before, e);
      ApplyOrder(before, e);
      forall k ensures Get(Ledger(ps, es), k) == Net(es, k) {
        ApplyGet(before, e, k);
      }
      assert es == init + [es[|es| - 1]];
    }
  }

  /** The net over a concatenation is the sum of the nets. */
  lemma {:induction false} NetAppend(a: seq<Expense>, b: seq<Expense>, k: string)
    ensures Net(a + b, k) == Net(a, k) + Net(b, k)
  {
    if |b| == 0 {
      assert a + b == a;
    } else {
      NetAppend(a, b[..|b| - 1], k);
      assert (a + b)[..|a + b| - 1] == a + b[..|b| - 1];
    }
  }

  /** Taking out the element at `i` takes one copy of it out of the multiset. */
  lemma MultisetRemove(s: seq<Expense>, i: nat)
    requires i < |s|
    ensures multiset(s[..i] + s[i + 1..]) == multiset(s) - multiset{s[i]}
  {
    assert s == s[..i] + [s[i]] + s[i + 1..];
  }

  /** In a permutation of `es1`, the last expense of `es1` sits at some index `i`, and
      what is around it is a permutation of the rest of `es1`. */
  lemma MatchLast(es1: seq<Expense>, es2: seq<Expense>) returns (i: nat)
    requires |es1| > 0 && multiset(es1) == multiset(es2)
    ensures i < |es2| && es2[i] == es1[|es1| - 1]
    ensures multiset(es1[..|es1| - 1]) == multiset(es2[..i] + es2[i + 1..])
  {
    var n := |es1| - 1;
    assert es1[n] in multiset(es2);
    i :| 0 <= i < |es2| && es2[i] == es1[n];
    MultisetRemove(es1, n);
    MultisetRemove(es2, i);
    assert es1[..n] + es1[n + 1..] == es1[..n];
  }

  /** The net does not depend on the order of the expenses. */
  lemma {:induction false} NetPermutation(es1: seq<Expense>, es2: seq<Expense>, k: string)
    requires multiset(es1) == multiset(es2)
    ensures Net(es1, k) == Net(es2, k)
  {
    if |es1| == 0 {
      assert |es2| == |multiset(es2)| == 0;
    } else {
      var i := MatchLast(es1, es2);
      var last := es1[|es1| - 1];
      var before, after := es2[..i], es2[i + 1..];
      NetPermutation(es1[..|es1| - 1], before + after, k);
      assert es2 == before + [last] + after;
      NetExtract(before, last, after, k);
    }
  }

  /** Taking one expense out of the middle of a list removes exactly its effect. */
  lemma NetExtract(before: seq<Expense>, e: Expense, after: seq<Expense>, k: string)
    ensures Net(before + [e] + after, k) == Net(before + after, k) + Effect(e, k)
  {
    NetAppend(before, after, k);
    NetAppend(before + [e], after, k);
    NetAppend(before, [e], k);
    assert Net([e], k) == Effect(e, k) by {
      assert [e][..0] == [];
    }
  }

  /** Processing the same expenses in any order yields the same keys and the same
      balance for every id. */
  lemma LedgerOrderIndependent(ps: seq<Participant>, es1: seq<Expense>, es2: seq<Expense>)
    requires multiset(es1) == multiset(es2)
    ensures forall k :: k in Ids(Ledger(ps, es1)) <==> k in Ids(Ledger(ps, es2))
    ensures forall k :: Get(Ledger(ps, es1), k) == Get(Ledger(ps, es2), k)
  {
    LedgerIsNet(ps, es1);
    LedgerIsNet(ps, es2);
    forall k ensures Get(Ledger(ps, es1), k) == Get(Ledger(ps, es2), k) {
      NetPermutation(es1, es2, k);
    }
    forall e ensures e in es1 <==> e in es2 {
      assert e in es1 <==> e in multiset(es1);
      assert e in es2 <==> e in multiset(es2);
    }
  }

  lemma {:induction false} CountMissing(ids: seq<string>, k: string)
    requires k !in ids
    ensures Count(ids, k) == 0
  {
    if |ids| > 0 {
      CountMissing(ids[..|ids| - 1], k);
    }
  }

  /** An id that no valid expense mentions has a net of exactly 0. */
  lemma {:induction false} NetUntouched(es: seq<Expense>, k: string)
    requires forall e :: e in es ==> k !in Touched(e)
    ensures Net(es, k) == 0.0
  {
    if |es| > 0 {
      var e := es[|es| - 1];
      NetUntouched(es[..|es| - 1], k);
      assert e in es;
      if IsValid(e) {
        assert k !in Touched(e);
        CountMissing(e.participantIds, k);
      }
    }
  }

  /** A participant whom no valid expense mentions is still a key and ends at exactly 0. */
  lemma UntouchedParticipant(ps: seq<Participant>, es: seq<Expense>, k: string)
    requires k in ParticipantIds(ps)
    requires forall e :: e in es ==> k !in Touched(e)
    ensures k in Ids(Ledger(ps, es)) && Get(Ledger(ps, es), k) == 0.0
  {
    LedgerIsNet(ps, es);
    NetUntouched(es, k);
  }

  method CalculateBalances(participants: seq<Participant>, expenses: seq<Expense>)
    returns (balances: Balances)
    ensures balances == Ledger(participants, expenses)
    ensures DistinctKeys(balances)
    ensures forall k :: Get(balances, k) == Net(expenses, k)
    ensures Sum(balances) == 0.0
  {
    balances := [];
    for i := 0 to |participants|
      invariant balances == Opening(participants[..i])
    {
      assert participants[..i + 1][..i] == participants[..i];
      balances := Put(balances, participants[i].id, 0.0);
    }
    assert participants[..|participants|] == participants;
    for i := 0 to |expenses|
      invariant balances == Ledger(participants, expenses[..i])
    {
      var expense := expenses[i];
      assert expenses[..i + 1][..i] == expenses[..i];
      if expense.payerId == "" || expense.amount <= 0.0 || |expense.participantIds| == 0 {
        continue;
      }
      balances := Put(balances, expense.payerId, Get(balances, expense.payerId) + expense.amount);
      ghost var credited := balances;
      var share := expense.amount / (|expense.participantIds| as real);
      for j := 0 to |expense.participantIds|
        invariant balances == Debit(credited, expense.participantIds[..j], share)
      {
        var participantId := expense.participantIds[j];
        assert expense.participantIds[..j + 1][..j] == expense.participantIds[..j];
        balances := Put(balances, participantId, Get(balances, participantId) - share);
      }
      assert expense.participantIds[..|expense.participantIds|] == expense.participantIds;
    }
    assert expenses[..|expenses|] == expenses;
    LedgerIsNet(participants, expenses);
  }
}
