/**
 * Ordered sequences of offsets and the result of `std::sort`.
 * The library sort is specified by what it returns: a non-decreasing
 * permutation of its input.  `Sort` below is a reference definition
 * (insertion sort) whose contract is exactly that.
 */
module Sorting {

  /** Strictly increasing: the shape of an occurrence set. */
  predicate Increasing(s: seq<int>) {
    forall i, j :: 0 <= i < j < |s| ==> s[i] < s[j]
  }

  predicate NonDecreasing(s: seq<int>) {
    forall i, j :: 0 <= i < j < |s| ==> s[i] <= s[j]
  }

  /** No value occurs twice. */
  predicate Distinct(s: seq<int>) {
    forall i, j :: 0 <= i < j < |s| ==> s[i] != s[j]
  }

  /** The offsets 0, 1, ..., n-1 in order (`std::iota`). */
  function Range(n: nat): (r: seq<int>)
    ensures |r| == n
    ensures forall i :: 0 <= i < n ==> r[i] == i
  {
    if n == 0 then [] else Range(n - 1) + [n - 1]
  }

  /** `Range(n)` is 0 .. n-1 in ascending order. */
  lemma {:induction false} RangeMembers(n: nat)
    ensures Increasing(Range(n))
    ensures forall x :: x in Range(n) <==> 0 <= x < n
  {
    forall x | 0 <= x < n ensures x in Range(n) {
      assert Range(n)[x] == x;
    }
  }

  function Insert(x: int, s: seq<int>): (r: seq<int>)
    ensures multiset(r) == multiset(s) + multiset{x}
    ensures |r| == |s| + 1
    ensures forall y :: y in r <==> y == x || y in s
  {
    if s == [] then [x]
    else if x <= s[0] then [x] + s
    else
      assert s == [s[0]] + s[1..];
      [s[0]] + Insert(x, s[1..])
  }

  lemma {:induction false} InsertSorted(x: int, s: seq<int>)
    requires NonDecreasing(s)
    ensures NonDecreasing(Insert(x, s))
  {
    if s != [] && x > s[0] {
      InsertSorted(x, s[1..]);
      var t := Insert(x, s[1..]);
      forall k | 0 <= k < |t| ensures s[0] <= t[k] {
        assert t[k] in t;
        if t[k] != x {
          var i :| 0 <= i < |s[1..]| && s[1..][i] == t[k];
          assert s[i + 1] == t[k];
        }
      }
      assert Insert(x, s) == [s[0]] + t;
    }
  }

  lemma {:induction false} InsertIncreasing(x: int, s: seq<int>)
    requires Increasing(s) && x !in s
    ensures Increasing(Insert(x, s))
  {
    if s != [] && x > s[0] {
      IncreasingHead(s);
      assert s == [s[0]] + s[1..];
      InsertIncreasing(x, s[1..]);
      var t := Insert(x, s[1..]);
      IncreasingCons(s[0], t);
    }
  }

  /** The result of `std::sort`: a non-decreasing rearrangement of `s`. */
  function Sort(s: seq<int>): (r: seq<int>)
    ensures multiset(r) == multiset(s)
    ensures |r| == |s|
    ensures NonDecreasing(r)
  {
    if s == [] then []
    else
      assert s == [s[0]] + s[1..];
      var t := Sort(s[1..]);
      InsertSorted(s[0], t);
      Insert(s[0], t)
  }

  lemma {:induction false} SortDistinct(s: seq<int>)
    requires Distinct(s)
    ensures Increasing(Sort(s))
  {
    if s != [] {
      assert s == [s[0]] + s[1..];
      SortDistinct(s[1..]);
      var t := Sort(s[1..]);
      assert s[0] !in s[1..];
      assert s[0] !in multiset(t);
      InsertIncreasing(s[0], t);
    }
  }

  /** Whatever decides whether `x` is in `s` decides whether it is in `Sort(s)`. */
  lemma {:induction false} SortMember(s: seq<int>, x: int, b: bool)
    requires x in s <==> b
    ensures x in Sort(s) <==> b
  {
    assert x in Sort(s) <==> x in multiset(Sort(s));
    assert x in s <==> x in multiset(s);
  }

  lemma {:induction false} SortMembers(s: seq<int>)
    ensures forall x :: x in Sort(s) <==> x in s
  {
    forall x ensures x in Sort(s) <==> x in s {
      assert x in Sort(s) <==> x in multiset(Sort(s));
      assert x in s <==> x in multiset(s);
    }
  }

  /** Two occurrence sets with the same members are the same sequence. */
  lemma {:induction false} IncreasingUnique(a: seq<int>, b: seq<int>)
    requires Increasing(a) && Increasing(b)
    requires forall x :: x in a <==> x in b
    ensures a == b
  {
    if a == [] {
      assert forall i | 0 <= i < |b| :: b[i] in b;
    } else {
      assert a[0] in a;
      assert a[0] in b;
      assert b != [];
      assert b[0] in a;
      assert a[0] == b[0];
      forall x ensures x in a[1..] <==> x in b[1..] {
        if x in a[1..] {
          var i :| 1 <= i < |a| && a[i] == x;
          assert x in b && x != b[0];
        }
        if x in b[1..] {
          var i :| 1 <= i < |b| && b[i] == x;
          assert x in a && x != a[0];
        }
      }
      IncreasingUnique(a[1..], b[1..]);
      assert a == [a[0]] + a[1..];
      assert b == [b[0]] + b[1..];
    }
  }

  lemma {:induction false} IncreasingIsDistinct(s: seq<int>)
    requires Increasing(s)
    ensures Distinct(s) && NonDecreasing(s)
  {
  }

  lemma {:induction false} IncreasingCons(h: int, t: seq<int>)
    requires Increasing(t)
    requires forall x :: x in t ==> h < x
    ensures Increasing([h] + t)
  {
    forall i, j | 0 <= i < j < |[h] + t| ensures ([h] + t)[i] < ([h] + t)[j] {
      if i > 0 { assert ([h] + t)[i] == t[i - 1]; }
      assert ([h] + t)[j] == t[j - 1];
      assert t[j - 1] in t;
    }
  }

  lemma {:induction false} IncreasingSnoc(t: seq<int>, h: int)
    requires Increasing(t)
    requires forall x :: x in t ==> x < h
    ensures Increasing(t + [h])
  {
    forall i, j | 0 <= i < j < |t + [h]| ensures (t + [h])[i] < (t + [h])[j] {
      assert (t + [h])[i] == t[i] && t[i] in t;
      if j < |t| { assert (t + [h])[j] == t[j]; }
    }
  }

  lemma {:induction false} IncreasingHead(s: seq<int>)
    requires Increasing(s) && s != []
    ensures forall x :: x in s[1..] ==> s[0] < x
    ensures Increasing(s[1..])
  {
    forall x | x in s[1..] ensures s[0] < x {
      var i :| 0 <= i < |s[1..]| && s[1..][i] == x;
      assert s[i + 1] == x;
    }
  }
}
