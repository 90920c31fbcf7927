/** The stable sort that retrieval, routing and stream reassembly rely on. */
module Sorting {
  ghost predicate SortedBy<T>(key: T -> real, xs: seq<T>) {
    forall i, j :: 0 <= i < j < |xs| ==> key(xs[i]) <= key(xs[j])
  }

  /** Put `x`, which came first, before the first element not below it. */
  function Insert<T>(key: T -> real, x: T, xs: seq<T>): seq<T> {
    if |xs| == 0 || key(x) <= key(xs[0]) then [x] + xs else [xs[0]] + Insert(key, x, xs[1..])
  }

  /** Ascending by key; elements with equal keys stay in their order. */
  function Sort<T>(key: T -> real, xs: seq<T>): seq<T> {
    if |xs| == 0 then [] else Insert(key, xs[0], Sort(key, xs[1..]))
  }

  lemma {:induction false} InsertPermutes<T>(key: T -> real, x: T, xs: seq<T>)
    ensures multiset(Insert(key, x, xs)) == multiset{x} + multiset(xs)
  {
    if |xs| > 0 {
      InsertPermutes(key, x, xs[1..]);
      assert xs == [xs[0]] + xs[1..];
    }
  }

  /** A bound below `x` and all of `xs` stays one. */
  lemma {:induction false} InsertKeepsBound<T>(key: T -> real, x: T, xs: seq<T>, bound: real)
    requires bound <= key(x) && forall i :: 0 <= i < |xs| ==> bound <= key(xs[i])
    ensures forall i :: 0 <= i < |Insert(key, x, xs)| ==> bound <= key(Insert(key, x, xs)[i])
  {
    if |xs| > 0 && !(key(x) <= key(xs[0])) {
      InsertKeepsBound(key, x, xs[1..], bound);
    }
  }

  lemma {:induction false} InsertSorts<T>(key: T -> real, x: T, xs: seq<T>)
    requires SortedBy(key, xs)
    ensures SortedBy(key, Insert(key, x, xs))
  {
    if |xs| > 0 && !(key(x) <= key(xs[0])) {
      InsertSorts(key, x, xs[1..]);
      InsertKeepsBound(key, x, xs[1..], key(xs[0]));
    }
  }

  lemma {:induction false} SortSorts<T>(key: T -> real, xs: seq<T>)
    ensures SortedBy(key, Sort(key, xs))
    ensures multiset(Sort(key, xs)) == multiset(xs)
  {
    if |xs| == 0 {
    } else {
      SortSorts(key, xs[1..]);
      InsertSorts(key, xs[0], Sort(key, xs[1..]));
      InsertPermutes(key, xs[0], Sort(key, xs[1..]));
      assert xs == [xs[0]] + xs[1..];
    }
  }

  /** The elements with one key value, in order. */
  function Tied<T>(key: T -> real, v: real, xs: seq<T>): seq<T> {
    if |xs| == 0 then []
    else if key(xs[0]) == v then [xs[0]] + Tied(key, v, xs[1..])
    else Tied(key, v, xs[1..])
  }

  lemma {:induction false} InsertKeepsTies<T>(key: T -> real, v: real, x: T, xs: seq<T>)
    requires SortedBy(key, xs)
    ensures Tied(key, v, Insert(key, x, xs)) == Tied(key, v, [x] + xs)
  {
    assert ([x] + xs)[1..] == xs;
    if |xs| > 0 && !(key(x) <= key(xs[0])) {
      InsertKeepsTies(key, v, x, xs[1..]);
      assert ([x] + xs[1..])[1..] == xs[1..];
      assert ([xs[0]] + Insert(key, x, xs[1..]))[1..] == Insert(key, x, xs[1..]);
    }
  }

  /** The sort is stable: elements with the same key stay in the order they had. */
  lemma {:induction false} SortIsStable<T>(key: T -> real, v: real, xs: seq<T>)
    ensures Tied(key, v, Sort(key, xs)) == Tied(key, v, xs)
  {
    if |xs| > 0 {
      SortIsStable(key, v, xs[1..]);
      SortSorts(key, xs[1..]);
      InsertKeepsTies(key, v, xs[0], Sort(key, xs[1..]));
      assert ([xs[0]] + Sort(key, xs[1..]))[1..] == Sort(key, xs[1..]);
    }
  }

  /** A sequence without duplicates has as many elements as its set. */
  lemma {:induction false} DistinctCount<T>(xs: seq<T>)
    requires forall i, j :: 0 <= i < j < |xs| ==> xs[i] != xs[j]
    ensures |set x | x in xs| == |xs|
  {
    if |xs| == 0 {
      assert (set x | x in xs) == {};
    } else {
      DistinctCount(xs[1..]);
      assert xs == [xs[0]] + xs[1..];
      assert (set x | x in xs) == {xs[0]} + (set x | x in xs[1..]);
      assert xs[0] !in xs[1..];
    }
  }

  /** A multiset determines the length and the members of a sequence. */
  lemma SameElements<T>(xs: seq<T>, ys: seq<T>)
    requires multiset(xs) == multiset(ys)
    ensures |xs| == |ys| && forall x :: x in xs <==> x in ys
  {
    assert |xs| == |multiset(xs)| == |multiset(ys)| == |ys|;
    forall x
      ensures x in xs <==> x in ys
    {
      assert x in xs <==> x in multiset(xs);
      assert x in ys <==> x in multiset(ys);
    }
  }

  lemma TailsAgree<T>(xs: seq<T>, ys: seq<T>)
    requires |xs| > 0 && |ys| > 0 && xs[0] == ys[0] && multiset(xs) == multiset(ys)
    ensures multiset(xs[1..]) == multiset(ys[1..])
  {
    assert xs == [xs[0]] + xs[1..] && ys == [ys[0]] + ys[1..];
    assert multiset(xs[1..]) == multiset(xs) - multiset{xs[0]};
    assert multiset(ys[1..]) == multiset(ys) - multiset{ys[0]};
  }

  /** Two arrangements of the same elements, one sorted and one strictly sorted, are equal. */
  lemma {:induction false} SortedIsUnique<T>(key: T -> real, xs: seq<T>, ys: seq<T>)
    requires SortedBy(key, xs) && multiset(xs) == multiset(ys)
    requires forall i, j :: 0 <= i < j < |ys| ==> key(ys[i]) < key(ys[j])
    ensures xs == ys
  {
    SameElements(xs, ys);
    if |ys| > 0 {
      assert ys[0] in ys && xs[0] in xs;
      var i :| 0 <= i < |xs| && xs[i] == ys[0];
      var j :| 0 <= j < |ys| && ys[j] == xs[0];
      assert j == 0;
      TailsAgree(xs, ys);
      SortedIsUnique(key, xs[1..], ys[1..]);
    }
  }

  /** Elements whose keys increase strictly come back in order from any arrangement. */
  lemma SortRestores<T>(key: T -> real, xs: seq<T>, ys: seq<T>)
    requires multiset(xs) == multiset(ys)
    requires forall i, j :: 0 <= i < j < |ys| ==> key(ys[i]) < key(ys[j])
    ensures Sort(key, xs) == ys
  {
    SortSorts(key, xs);
    SortedIsUnique(key, Sort(key, xs), ys);
  }
}
