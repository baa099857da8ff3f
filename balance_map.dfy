/** The `Map<string, number>` that carries net balances from the balance calculator to
    the debt simplifier, as a sequence of entries kept in insertion order (the order in
    which `Map.entries()` yields them). */
module BalanceMap {

  /** One entry of the map: a participant id and that participant's net balance. */
  datatype Entry = Entry(personId: string, balance: real)

  type Balances = seq<Entry>

  /** The keys of the map, in insertion order. */
  function Ids(m: Balances): (r: seq<string>)
    ensures |r| == |m|
    ensures forall i :: 0 <= i < |m| ==> r[i] == m[i].personId
  {
    seq(|m|, i requires 0 <= i < |m| => m[i].personId)
  }

  /** No key occurs twice, as in a JavaScript `Map`. */
  predicate DistinctKeys(m: Balances)
  {
    forall i, j :: 0 <= i < j < |m| ==> m[i].personId != m[j].personId
  }

  /** `m.get(k) || 0`: the balance stored under `k`, or 0 when `k` is not a key. */
  function Get(m: Balances, k: string): real
  {
    if |m| == 0 then 0.0
    else if m[0].personId == k then m[0].balance
    else Get(m[1..], k)
  }

  /** The sum of all balances in the map. */
  function Sum(m: Balances): real
  {
    if |m| == 0 then 0.0 else m[0].balance + Sum(m[1..])
  }

  /** `m.set(k, v)`: an existing key keeps its place and takes the new value; a new
      key is appended at the end. */
  function Put(m: Balances, k: string, v: real): (r: Balances)
    ensures forall j :: Get(r, j) == if j == k then v else Get(m, j)
  {
    if |m| == 0 then [Entry(k, v)]
    else if m[0].personId == k then [Entry(k, v)] + m[1..]
    else [m[0]] + Put(m[1..], k, v)
  }

  /** Setting a key keeps every key in its place and appends the key when it is new. */
  lemma {:induction false} PutIds(m: Balances, k: string, v: real)
    ensures Ids(Put(m, k, v)) == if k in Ids(m) then Ids(m) else Ids(m) + [k]
  {
    var r := Put(m, k, v);
    if |m| == 0 {
      assert Ids(r) == [k];
    } else if m[0].personId == k {
      assert Ids(m)[0] == k;
      assert Ids(r) == Ids(m);
    } else {
      var rest := m[1..];
      PutIds(rest, k, v);
      assert Ids(m) == [m[0].personId] + Ids(rest);
      assert k in Ids(m) <==> k in Ids(rest);
      assert Ids(r) == [m[0].personId] + Ids(Put(rest, k, v));
    }
  }

  /** Setting a key that is not in the map appends it at the end. */
  lemma {:induction false} PutNew(m: Balances, k: string, v: real)
    requires k !in Ids(m)
    ensures Put(m, k, v) == m + [Entry(k, v)]
  {
    if |m| > 0 {
      assert Ids(m)[0] == m[0].personId;
      assert Ids(m[1..]) == Ids(m)[1..];
      PutNew(m[1..], k, v);
      assert m == [m[0]] + m[1..];
    }
  }

  /** Setting a key that is in a map without repeated keys replaces its entry in place. */
  lemma {:induction false} PutExisting(m: Balances, i: nat, v: real)
    requires DistinctKeys(m) && i < |m|
    ensures Put(m, m[i].personId, v) == m[i := Entry(m[i].personId, v)]
  {
    if i > 0 {
      assert m[0].personId != m[i].personId;
      assert m[1..][i - 1] == m[i];
      PutExisting(m[1..], i - 1, v);
      assert m[i := Entry(m[i].personId, v)] == [m[0]] + m[1..][i - 1 := Entry(m[i].personId, v)];
    }
  }

  /** Setting a key moves the sum of the map by the difference between the new value
      and the value it read before. */
  lemma {:induction false} PutSum(m: Balances, k: string, v: real)
    ensures Sum(Put(m, k, v)) == Sum(m) - Get(m, k) + v
  {
    if |m| > 0 && m[0].personId != k {
      PutSum(m[1..], k, v);
    }
  }

  /** Setting a key never introduces a repeated key. */
  lemma PutDistinct(m: Balances, k: string, v: real)
    ensures DistinctKeys(m) ==> DistinctKeys(Put(m, k, v))
  {
    var r := Put(m, k, v);
    PutIds(m, k, v);
    if DistinctKeys(m) {
      forall i, j | 0 <= i < j < |r| ensures r[i].personId != r[j].personId {
        assert Ids(r)[i] == r[i].personId && Ids(r)[j] == r[j].personId;
      }
    }
  }

  /** In a map without repeated keys, looking up an entry's key yields its balance. */
  lemma {:induction false} GetEntry(m: Balances, i: nat)
    requires DistinctKeys(m) && i < |m|
    ensures Get(m, m[i].personId) == m[i].balance
  {
    if i > 0 {
      GetEntry(m[1..], i - 1);
    }
  }

  /** A key that is not in the map reads as 0. */
  lemma {:induction false} GetMissing(m: Balances, k: string)
    requires k !in Ids(m)
    ensures Get(m, k) == 0.0
  {
    if |m| > 0 {
      assert Ids(m[1..]) == Ids(m)[1..];
      GetMissing(m[1..], k);
    }
  }
}
