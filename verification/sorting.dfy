/** Array.prototype.sort with a comparator. The sort is stable (as required
    of JavaScript engines since ES2019), so it is modelled as an insertion
    sort that never moves an element past an equal one. A comparator is
    represented by `le(a, b)`: "a may stay in front of b", i.e. the
    comparator's result for (a, b) is not positive. */
module Sorting {

  ghost predicate TotalPreorder<T(!new)>(le: (T, T) -> bool)
  {
    && (forall a, b :: le(a, b) || le(b, a))
    && (forall a, b, c :: le(a, b) && le(b, c) ==> le(a, c))
  }

  ghost predicate SortedBy<T>(s: seq<T>, le: (T, T) -> bool)
  {
    forall i, j :: 0 <= i < j < |s| ==> le(s[i], s[j])
  }

  /** Puts x in front of the first element it may precede. */
  function Insert<T>(x: T, s: seq<T>, le: (T, T) -> bool): (r: seq<T>)
    ensures |r| == |s| + 1
    ensures multiset(r) == multiset(s) + multiset{x}
  {
    if |s| == 0 then [x]
    else if le(x, s[0]) then [x] + s
    else
      assert s == [s[0]] + s[1..];
      [s[0]] + Insert(x, s[1..], le)
  }

  lemma {:induction false} InsertSorted<T(!new)>(x: T, s: seq<T>, le: (T, T) -> bool)
    requires TotalPreorder(le) && SortedBy(s, le)
    ensures SortedBy(Insert(x, s, le), le)
    decreases |s|
  {
    if |s| > 0 && !le(x, s[0]) {
      var t := Insert(x, s[1..], le);
      InsertSorted(x, s[1..], le);
      assert le(s[0], x);
      forall j | 0 <= j < |t|
        ensures le(s[0], t[j])
      {
        assert t[j] in multiset(t);
        assert t[j] == x || t[j] in multiset(s[1..]);
        if t[j] != x {
          var k :| 0 <= k < |s[1..]| && s[1..][k] == t[j];
          assert s[k + 1] == t[j];
        }
      }
      var r := [s[0]] + t;
      assert forall j :: 1 <= j < |r| ==> r[j] == t[j - 1];
    }
  }

  function Sort<T(!new)>(xs: seq<T>, le: (T, T) -> bool): (r: seq<T>)
    requires TotalPreorder(le)
    ensures multiset(r) == multiset(xs)
    ensures SortedBy(r, le)
    decreases |xs|
  {
    if |xs| == 0 then []
    else
      var rest := Sort(xs[1..], le);
      InsertSorted(xs[0], rest, le);
      assert xs == [xs[0]] + xs[1..];
      Insert(xs[0], rest, le)
  }

  /** Sorting an already sorted sequence leaves it unchanged; in particular
      a comparator that always answers 0 keeps the original order. */
  lemma {:induction false} SortOfSorted<T(!new)>(xs: seq<T>, le: (T, T) -> bool)
    requires TotalPreorder(le) && SortedBy(xs, le)
    ensures Sort(xs, le) == xs
    decreases |xs|
  {
    if |xs| > 0 {
      SortOfSorted(xs[1..], le);
      assert xs == [xs[0]] + xs[1..];
    }
  }

  lemma SortIdempotent<T(!new)>(xs: seq<T>, le: (T, T) -> bool)
    requires TotalPreorder(le)
    ensures Sort(Sort(xs, le), le) == Sort(xs, le)
  {
    SortOfSorted(Sort(xs, le), le);
  }

  /** The elements of s the comparator ranks equal to z, in order. */
  function EqualTo<T>(s: seq<T>, z: T, le: (T, T) -> bool): seq<T>
  {
    if |s| == 0 then []
    else (if le(s[0], z) && le(z, s[0]) then [s[0]] else []) + EqualTo(s[1..], z, le)
  }

  /** Inserting x never moves it past an element equal to it. */
  lemma {:induction false} InsertKeepsEqualOrder<T(!new)>(x: T, s: seq<T>, z: T, le: (T, T) -> bool)
    requires TotalPreorder(le)
    ensures EqualTo(Insert(x, s, le), z, le) == EqualTo([x] + s, z, le)
    decreases |s|
  {
    assert ([x] + s)[1..] == s;
    if |s| > 0 && !le(x, s[0]) {
      var t := Insert(x, s[1..], le);
      InsertKeepsEqualOrder(x, s[1..], z, le);
      assert ([s[0]] + t)[1..] == t;
      assert ([x] + s[1..])[1..] == s[1..];
      assert !(le(x, z) && le(z, s[0]));
    }
  }

  /** Stability: the elements equal to any z come out in their input order. */
  lemma {:induction false} SortIsStable<T(!new)>(xs: seq<T>, z: T, le: (T, T) -> bool)
    requires TotalPreorder(le)
    ensures EqualTo(Sort(xs, le), z, le) == EqualTo(xs, z, le)
    decreases |xs|
  {
    if |xs| > 0 {
      var rest := Sort(xs[1..], le);
      SortIsStable(xs[1..], z, le);
      InsertKeepsEqualOrder(xs[0], rest, z, le);
      assert ([xs[0]] + rest)[1..] == rest;
    }
  }
}
