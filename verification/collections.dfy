/** Array operations shared by every page: Array.prototype.filter and find,
    the insertion-ordered key set of a Set, and the optional value that
    `find` and the `?:` fields of the records produce. */
module Collections {

  datatype Option<+T> = None | Some(value: T)

  /** `sub` is `xs` with some elements left out and the rest in their order. */
  predicate IsSubsequence<T(==)>(sub: seq<T>, xs: seq<T>)
    decreases |xs|
  {
    if |xs| == 0 then |sub| == 0
    else
      IsSubsequence(sub, xs[..|xs| - 1])
      || (|sub| > 0 && sub[|sub| - 1] == xs[|xs| - 1] && IsSubsequence(sub[..|sub| - 1], xs[..|xs| - 1]))
  }

  /** Array.prototype.filter. */
  function Filter<T(==,!new)>(xs: seq<T>, keep: T -> bool): (r: seq<T>)
    ensures |r| <= |xs|
    ensures forall x :: multiset(r)[x] == if keep(x) then multiset(xs)[x] else 0
    ensures forall x :: x in r <==> x in xs && keep(x)
    ensures IsSubsequence(r, xs)
    decreases |xs|
  {
    if |xs| == 0 then []
    else
      var init := xs[..|xs| - 1];
      var last := xs[|xs| - 1];
      assert xs == init + [last];
      var rest := Filter(init, keep);
      if keep(last) then
        assert (rest + [last])[..|rest|] == rest;
        rest + [last]
      else
        rest
  }

  /** Array.prototype.find: the first element satisfying `p`, if any. */
  function FindFirst<T>(xs: seq<T>, p: T -> bool): (r: Option<T>)
    ensures r.None? <==> forall i :: 0 <= i < |xs| ==> !p(xs[i])
    ensures r.Some? ==> exists i :: 0 <= i < |xs| && xs[i] == r.value && p(xs[i])
                                    && forall j :: 0 <= j < i ==> !p(xs[j])
    decreases |xs|
  {
    if |xs| == 0 then None
    else if p(xs[0]) then Some(xs[0])
    else
      var rest := FindFirst(xs[1..], p);
      assert forall i :: 1 <= i < |xs| ==> xs[i] == xs[1..][i - 1];
      rest
  }

  predicate Distinct<T(==)>(xs: seq<T>)
  {
    forall i, j :: 0 <= i < j < |xs| ==> xs[i] != xs[j]
  }

  /** The position of the first occurrence of `x` in `xs`. */
  function FirstIndex<T(==)>(xs: seq<T>, x: T): (i: nat)
    requires x in xs
    ensures i < |xs| && xs[i] == x
    ensures forall j :: 0 <= j < i ==> xs[j] != x
  {
    if xs[0] == x then 0 else 1 + FirstIndex(xs[1..], x)
  }

  /** The distinct elements of `xs` in order of first occurrence: the
      iteration order of `new Set(xs)` and of a plain object's string keys. */
  function Dedup<T(==,!new)>(xs: seq<T>): (r: seq<T>)
    ensures Distinct(r)
    ensures forall x :: x in r <==> x in xs
    ensures |r| <= |xs|
    decreases |xs|
  {
    if |xs| == 0 then []
    else
      var rest := Dedup(xs[..|xs| - 1]);
      var last := xs[|xs| - 1];
      assert forall x :: x in xs <==> x in xs[..|xs| - 1] || x == last;
      if last in rest then rest else rest + [last]
  }

  lemma {:induction false} DedupKeepsFirstOccurrenceOrder<T(!new)>(xs: seq<T>)
    ensures forall i, j :: 0 <= i < j < |Dedup(xs)| ==>
              FirstIndex(xs, Dedup(xs)[i]) < FirstIndex(xs, Dedup(xs)[j])
    decreases |xs|
  {
    if |xs| > 0 {
      var init := xs[..|xs| - 1];
      var last := xs[|xs| - 1];
      DedupKeepsFirstOccurrenceOrder(init);
      var r := Dedup(xs);
      var rest := Dedup(init);
      forall x | x in init
        ensures FirstIndex(xs, x) == FirstIndex(init, x)
      {
        FirstIndexOfPrefix(init, xs, x);
      }
      if last !in rest {
        assert last !in init;
        forall i | 0 <= i < |rest|
          ensures FirstIndex(xs, r[i]) < FirstIndex(xs, last)
        {
          assert r[i] == rest[i];
          assert r[i] in init;
        }
      }
    }
  }

  lemma FirstIndexOfPrefix<T>(init: seq<T>, xs: seq<T>, x: T)
    requires x in init && init <= xs
    ensures x in xs && FirstIndex(xs, x) == FirstIndex(init, x)
  {
    var i := FirstIndex(init, x);
    assert xs[i] == x;
    assert forall j :: 0 <= j < |init| ==> xs[j] == init[j];
  }

  lemma {:induction false} DedupEmpty<T(!new)>(xs: seq<T>)
    ensures |Dedup(xs)| == 0 <==> |xs| == 0
  {
    if |xs| > 0 {
      assert xs[0] in Dedup(xs);
    }
  }
}
