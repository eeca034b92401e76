/** Group-by-and-sum, the `acc[key] = (acc[key] || 0) + amount` idiom the
    pages run over a plain object: one entry per distinct key, in order of
    first occurrence, holding the sum of that key's amounts. */
module Grouping {
  import opened Collections

  datatype Entry<K> = Entry(key: K, amount: real)

  function Keys<K>(es: seq<Entry<K>>): (r: seq<K>)
    ensures |r| == |es|
    ensures forall i :: 0 <= i < |es| ==> r[i] == es[i].key
  {
    seq(|es|, i requires 0 <= i < |es| => es[i].key)
  }

  /** The sum of the amounts of the entries whose key is k. */
  function KeySum<K(==)>(es: seq<Entry<K>>, k: K): real
  {
    if |es| == 0 then 0.0
    else KeySum(es[..|es| - 1], k) + (if es[|es| - 1].key == k then es[|es| - 1].amount else 0.0)
  }

  /** The sum of all amounts, as `reduce((sum, e) => sum + e.amount, 0)`. */
  function Total<K>(es: seq<Entry<K>>): real
  {
    if |es| == 0 then 0.0 else Total(es[..|es| - 1]) + es[|es| - 1].amount
  }

  predicate NonNegative<K>(es: seq<Entry<K>>)
  {
    forall i :: 0 <= i < |es| ==> es[i].amount >= 0.0
  }

  lemma {:induction false} TotalUpdate<K>(es: seq<Entry<K>>, i: nat, e: Entry<K>)
    requires i < |es|
    ensures Total(es[i := e]) == Total(es) - es[i].amount + e.amount
    decreases |es|
  {
    var u := es[i := e];
    assert u[..|u| - 1] == if i < |es| - 1 then es[..|es| - 1][i := e] else es[..|es| - 1];
    if i < |es| - 1 {
      TotalUpdate(es[..|es| - 1], i, e);
    }
  }

  lemma {:induction false} KeySumAbsent<K>(es: seq<Entry<K>>, k: K)
    requires k !in Keys(es)
    ensures KeySum(es, k) == 0.0
    decreases |es|
  {
    if |es| > 0 {
      assert Keys(es[..|es| - 1]) <= Keys(es);
      KeySumAbsent(es[..|es| - 1], k);
    }
  }

  lemma {:induction false} KeySumNonNegative<K>(es: seq<Entry<K>>, k: K)
    requires NonNegative(es)
    ensures KeySum(es, k) >= 0.0
    decreases |es|
  {
    if |es| > 0 {
      KeySumNonNegative(es[..|es| - 1], k);
    }
  }

  lemma {:induction false} EntryAtMostTotal<K>(es: seq<Entry<K>>, i: nat)
    requires NonNegative(es) && i < |es|
    ensures 0.0 <= es[i].amount <= Total(es)
    decreases |es|
  {
    if i < |es| - 1 {
      EntryAtMostTotal(es[..|es| - 1], i);
      TotalNonNegative(es[..|es| - 1]);
    } else {
      TotalNonNegative(es[..|es| - 1]);
    }
  }

  lemma {:induction false} TotalNonNegative<K>(es: seq<Entry<K>>)
    requires NonNegative(es)
    ensures Total(es) >= 0.0
    decreases |es|
  {
    if |es| > 0 {
      TotalNonNegative(es[..|es| - 1]);
    }
  }

  /** Adds one entry into an accumulator with distinct keys: the entry with
      the same key grows by e.amount, or e is appended as a new key. */
  function Accumulate<K(==)>(acc: seq<Entry<K>>, e: Entry<K>): (r: seq<Entry<K>>)
    requires Distinct(Keys(acc))
    ensures e.key in Keys(acc) ==> Keys(r) == Keys(acc)
    ensures e.key !in Keys(acc) ==> r == acc + [e]
    ensures forall i :: 0 <= i < |acc| ==>
              r[i].key == acc[i].key
              && r[i].amount == acc[i].amount + (if acc[i].key == e.key then e.amount else 0.0)
    ensures Total(r) == Total(acc) + e.amount
  {
    if e.key in Keys(acc) then
      var i := FirstIndex(Keys(acc), e.key);
      var r := acc[i := Entry(e.key, acc[i].amount + e.amount)];
      TotalUpdate(acc, i, Entry(e.key, acc[i].amount + e.amount));
      assert Keys(r) == Keys(acc);
      r
    else
      acc + [e]
  }

  /** Folds every entry into the accumulator, starting from the empty one. */
  function GroupSum<K(==,!new)>(es: seq<Entry<K>>): (r: seq<Entry<K>>)
    ensures Keys(r) == Dedup(Keys(es))
    ensures forall i :: 0 <= i < |r| ==> r[i].amount == KeySum(es, r[i].key)
    ensures Total(r) == Total(es)
    decreases |es|
  {
    if |es| == 0 then []
    else
      var rest := GroupSum(es[..|es| - 1]);
      var r := Accumulate(rest, es[|es| - 1]);
      AccumulateKeys(es, rest, r);
      AccumulateSums(es, rest, r);
      r
  }

  lemma AccumulateKeys<K(!new)>(es: seq<Entry<K>>, rest: seq<Entry<K>>, r: seq<Entry<K>>)
    requires |es| > 0
    requires Keys(rest) == Dedup(Keys(es[..|es| - 1]))
    requires r == Accumulate(rest, es[|es| - 1])
    ensures Keys(r) == Dedup(Keys(es))
  {
    assert Keys(es)[..|es| - 1] == Keys(es[..|es| - 1]);
    if es[|es| - 1].key !in Keys(rest) {
      assert Keys(r) == Keys(rest) + [es[|es| - 1].key];
    }
  }

  lemma AccumulateSums<K(!new)>(es: seq<Entry<K>>, rest: seq<Entry<K>>, r: seq<Entry<K>>)
    requires |es| > 0
    requires Keys(rest) == Dedup(Keys(es[..|es| - 1]))
    requires forall i :: 0 <= i < |rest| ==> rest[i].amount == KeySum(es[..|es| - 1], rest[i].key)
    requires r == Accumulate(rest, es[|es| - 1])
    ensures forall i :: 0 <= i < |r| ==> r[i].amount == KeySum(es, r[i].key)
  {
    var init := es[..|es| - 1];
    var last := es[|es| - 1];
    var inRest := last.key in Keys(rest);
    if !inRest {
      assert last.key !in Keys(init);
      KeySumAbsent(init, last.key);
    }
    forall i | 0 <= i < |r|
      ensures r[i].amount == KeySum(es, r[i].key)
    {
      var k := r[i].key;
      assert KeySum(es, k) == KeySum(init, k) + (if last.key == k then last.amount else 0.0);
      if i < |rest| {
        assert k == rest[i].key;
        assert r[i].amount == rest[i].amount + (if last.key == k then last.amount else 0.0);
      } else {
        assert !inRest && r[i] == last;
      }
    }
  }

  lemma GroupSumNonNegative<K(!new)>(es: seq<Entry<K>>)
    requires NonNegative(es)
    ensures NonNegative(GroupSum(es))
  {
    var r := GroupSum(es);
    forall i | 0 <= i < |r|
      ensures r[i].amount >= 0.0
    {
      KeySumNonNegative(es, r[i].key);
    }
  }
}
