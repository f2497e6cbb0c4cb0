/**
 * The JavaScript array built-ins the two price parsers use, as functions on
 * sequences: `slice(0, n)`, `sort((a, b) => a - b)` on numbers,
 * `reduce((a, b) => a + b, 0)` and `[...new Set(xs)]`.
 */
module ArrayOps {

  /** `xs.slice(0, n)`: the first `n` elements, or all of them when there are fewer. */
  function Take<T>(xs: seq<T>, n: nat): (r: seq<T>)
    ensures |r| == if |xs| < n then |xs| else n
    ensures r == xs[..|r|]
  {
    if |xs| < n then xs else xs[..n]
  }

  predicate SortedAsc(s: seq<int>)
  {
    forall i, j :: 0 <= i < j < |s| ==> s[i] <= s[j]
  }

  /** Puts `x` into an ascending sequence, after the elements smaller than it. */
  function Insert(x: int, s: seq<int>): (r: seq<int>)
    requires SortedAsc(s)
    ensures |r| == |s| + 1
    ensures r[0] == if s != [] && s[0] < x then s[0] else x
    ensures SortedAsc(r)
    ensures multiset(r) == multiset(s) + multiset{x}
  {
    if s == [] || x <= s[0] then
      ConsSorted(x, s);
      [x] + s
    else
      var rest := Insert(x, s[1..]);
      ConsSorted(s[0], rest);
      assert s == [s[0]] + s[1..];
      [s[0]] + rest
  }

  /** A value no larger than the head of an ascending sequence can go in front of it. */
  lemma ConsSorted(a: int, s: seq<int>)
    requires SortedAsc(s) && (s != [] ==> a <= s[0])
    ensures SortedAsc([a] + s)
  {
    assert forall j :: 0 <= j < |s| ==> a <= s[j];
  }

  /** `Array.prototype.sort` with the numeric comparator `(a, b) => a - b`. */
  function SortAscending(s: seq<int>): (r: seq<int>)
    ensures SortedAsc(r)
    ensures multiset(r) == multiset(s)
    ensures |r| == |s|
  {
    if s == [] then []
    else
      assert s == [s[0]] + s[1..];
      Insert(s[0], SortAscending(s[1..]))
  }

  /** `xs.reduce((a, b) => a + b, 0)`. */
  function Sum(s: seq<int>): int
  {
    if s == [] then 0 else s[0] + Sum(s[1..])
  }

  /** The number of elements below `m`. */
  function CountBelow(s: seq<int>, m: int): nat
  {
    if s == [] then 0 else (if s[0] < m then 1 else 0) + CountBelow(s[1..], m)
  }

  /** The number of elements at most `m`. */
  function CountAtMost(s: seq<int>, m: int): nat
  {
    if s == [] then 0 else (if s[0] <= m then 1 else 0) + CountAtMost(s[1..], m)
  }

  lemma {:induction false} InsertKeepsSumAndCounts(x: int, s: seq<int>, m: int)
    requires SortedAsc(s)
    ensures Sum(Insert(x, s)) == x + Sum(s)
    ensures CountBelow(Insert(x, s), m) == (if x < m then 1 else 0) + CountBelow(s, m)
    ensures CountAtMost(Insert(x, s), m) == (if x <= m then 1 else 0) + CountAtMost(s, m)
  {
    if s == [] || x <= s[0] {
      assert ([x] + s)[1..] == s;
    } else {
      InsertKeepsSumAndCounts(x, s[1..], m);
      assert ([s[0]] + Insert(x, s[1..]))[1..] == Insert(x, s[1..]);
    }
  }

  /** Sorting changes neither the sum nor how many elements lie below (or at most at) a bound. */
  lemma {:induction false} SortKeepsSumAndCounts(s: seq<int>, m: int)
    ensures Sum(SortAscending(s)) == Sum(s)
    ensures CountBelow(SortAscending(s), m) == CountBelow(s, m)
    ensures CountAtMost(SortAscending(s), m) == CountAtMost(s, m)
  {
    if s != [] {
      SortKeepsSumAndCounts(s[1..], m);
      InsertKeepsSumAndCounts(s[0], SortAscending(s[1..]), m);
    }
  }

  /** When every element from index `i` on is at least `m`, at most `i` elements are below `m`. */
  lemma {:induction false} CountBelowBound(s: seq<int>, m: int, i: nat)
    requires forall k :: i <= k < |s| ==> s[k] >= m
    ensures CountBelow(s, m) <= i
  {
    if s != [] {
      CountBelowBound(s[1..], m, if i == 0 then 0 else i - 1);
    }
  }

  /** When every element up to index `i` is at most `m`, at least `i + 1` elements are at most `m`. */
  lemma {:induction false} CountAtMostBound(s: seq<int>, m: int, i: nat)
    requires i < |s|
    requires forall k :: 0 <= k <= i ==> s[k] <= m
    ensures CountAtMost(s, m) >= i + 1
  {
    if i > 0 {
      CountAtMostBound(s[1..], m, i - 1);
    } else {
      assert CountAtMost(s, m) >= 1;
    }
  }

  predicate Distinct<T(==)>(s: seq<T>)
  {
    forall i, j :: 0 <= i < j < |s| ==> s[i] != s[j]
  }

  /** The index of the first occurrence of `x` in `s`. */
  function FirstIndex<T(==)>(s: seq<T>, x: T): (i: nat)
    requires x in s
    ensures i < |s| && s[i] == x
    ensures forall k :: 0 <= k < i ==> s[k] != x
  {
    if s[0] == x then 0 else 1 + FirstIndex(s[1..], x)
  }

  /** `[...new Set(xs)]`: each value once, in the order of its first occurrence. */
  function Dedup<T(==,!new)>(s: seq<T>): (r: seq<T>)
    ensures Distinct(r)
    ensures forall x :: x in r <==> x in s
    ensures |r| <= |s|
  {
    if s == [] then []
    else
      var d := Dedup(s[..|s| - 1]);
      var x := s[|s| - 1];
      assert forall y :: y in s <==> y in s[..|s| - 1] || y == x;
      if x in d then d else d + [x]
  }

  /** Dedup keeps first-encounter order: earlier in the result means first seen earlier in the input. */
  lemma {:induction false} DedupKeepsFirstSeenOrder<T(!new)>(s: seq<T>, i: nat, j: nat)
    requires i < j < |Dedup(s)|
    ensures FirstIndex(s, Dedup(s)[i]) < FirstIndex(s, Dedup(s)[j])
  {
    var front := s[..|s| - 1];
    var d := Dedup(front);
    var x := s[|s| - 1];
    var r := Dedup(s);
    assert s == front + [x];
    assert r == if x in d then d else d + [x];
    assert r[i] == d[i] && r[i] in front;
    FirstIndexOfExtended(front, x, r[i]);
    if j < |d| {
      assert r[j] == d[j] && r[j] in front;
      DedupKeepsFirstSeenOrder(front, i, j);
      FirstIndexOfExtended(front, x, r[j]);
    } else {
      assert r[j] == x && x !in front;
      FirstIndexOfNew(front, x);
    }
  }

  lemma FirstIndexOfExtended<T>(front: seq<T>, x: T, y: T)
    requires y in front
    ensures FirstIndex(front + [x], y) == FirstIndex(front, y)
  {
    assert (front + [x])[FirstIndex(front, y)] == y;
  }

  lemma FirstIndexOfNew<T>(front: seq<T>, x: T)
    requires x !in front
    ensures FirstIndex(front + [x], x) == |front|
  {
  }
}
