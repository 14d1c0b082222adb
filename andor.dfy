/**
 * Result-set algebra over occurrence sets (include/andor.hpp): intersection,
 * union and difference of sorted offset vectors, proximity filters and
 * n-ary folds.  The three set operations are the library's sorted merges,
 * specified by what they return on strictly increasing inputs.
 */
module AndOr {
  import opened Sorting

  /** `andOperation`: `std::set_intersection` of `a` and `b`. */
  function AndOperation(a: seq<int>, b: seq<int>): (r: seq<int>)
    ensures forall x :: x in r ==> x in a && x in b
    ensures |r| <= |a| && |r| <= |b|
    ensures Increasing(a) && Increasing(b) ==>
      Increasing(r) && forall x :: x in a && x in b ==> x in r
    decreases |a| + |b|
  {
    if a == [] || b == [] then []
    else if a[0] < b[0] then
      var r := AndOperation(a[1..], b);
      assert Increasing(a) && Increasing(b) ==> forall x :: x in a && x in b ==> x in r by {
        if Increasing(a) && Increasing(b) { IncreasingHead(a); IncreasingHead(b); }
      }
      r
    else if b[0] < a[0] then
      var r := AndOperation(a, b[1..]);
      assert Increasing(a) && Increasing(b) ==> forall x :: x in a && x in b ==> x in r by {
        if Increasing(a) && Increasing(b) { IncreasingHead(a); IncreasingHead(b); }
      }
      r
    else
      var t := AndOperation(a[1..], b[1..]);
      assert Increasing(a) && Increasing(b) ==>
          Increasing([a[0]] + t) && forall x :: x in a && x in b ==> x in [a[0]] + t by {
        if Increasing(a) && Increasing(b) {
          IncreasingHead(a); IncreasingHead(b);
          IncreasingCons(a[0], t);
        }
      }
      [a[0]] + t
  }

  /** `orOperation`: `std::set_union` of `a` and `b`. */
  function OrOperation(a: seq<int>, b: seq<int>): (r: seq<int>)
    ensures forall x :: x in r <==> x in a || x in b
    ensures |r| <= |a| + |b|
    ensures Increasing(a) && Increasing(b) ==> Increasing(r)
    decreases |a| + |b|
  {
    if a == [] then b
    else if b == [] then a
    else if a[0] < b[0] then
      var t := OrOperation(a[1..], b);
      assert a == [a[0]] + a[1..];
      assert Increasing(a) && Increasing(b) ==> Increasing([a[0]] + t) by {
        if Increasing(a) && Increasing(b) {
          IncreasingHead(a); IncreasingHead(b);
          IncreasingCons(a[0], t);
        }
      }
      [a[0]] + t
    else if b[0] < a[0] then
      var t := OrOperation(a, b[1..]);
      assert b == [b[0]] + b[1..];
      assert Increasing(a) && Increasing(b) ==> Increasing([b[0]] + t) by {
        if Increasing(a) && Increasing(b) {
          IncreasingHead(a); IncreasingHead(b);
          IncreasingCons(b[0], t);
        }
      }
      [b[0]] + t
    else
      var t := OrOperation(a[1..], b[1..]);
      assert a == [a[0]] + a[1..] && b == [b[0]] + b[1..];
      assert Increasing(a) && Increasing(b) ==> Increasing([a[0]] + t) by {
        if Increasing(a) && Increasing(b) {
          IncreasingHead(a); IncreasingHead(b);
          IncreasingCons(a[0], t);
        }
      }
      [a[0]] + t
  }

  /** `notOperation`: `std::set_difference`, the elements of `a` not in `b`. */
  function NotOperation(a: seq<int>, b: seq<int>): (r: seq<int>)
    ensures forall x :: x in r ==> x in a
    ensures |r| <= |a|
    ensures Increasing(a) && Increasing(b) ==>
      Increasing(r) && forall x :: x in r <==> x in a && x !in b
    decreases |a| + |b|
  {
    if a == [] then []
    else if b == [] then a
    else if a[0] < b[0] then
      var t := NotOperation(a[1..], b);
      assert a == [a[0]] + a[1..];
      assert Increasing(a) && Increasing(b) ==>
          Increasing([a[0]] + t) && forall x :: x in [a[0]] + t <==> x in a && x !in b by {
        if Increasing(a) && Increasing(b) {
          IncreasingHead(a); IncreasingHead(b);
          IncreasingCons(a[0], t);
        }
      }
      [a[0]] + t
    else if b[0] < a[0] then
      var t := NotOperation(a, b[1..]);
      assert Increasing(a) && Increasing(b) ==> forall x :: x in t <==> x in a && x !in b by {
        if Increasing(a) && Increasing(b) { IncreasingHead(a); IncreasingHead(b); }
      }
      t
    else
      var t := NotOperation(a[1..], b[1..]);
      assert Increasing(a) && Increasing(b) ==> forall x :: x in t <==> x in a && x !in b by {
        if Increasing(a) && Increasing(b) { IncreasingHead(a); IncreasingHead(b); }
      }
      t
  }

  // ---------------------------------------------------------------------
  // Laws of the algebra on occurrence sets.

  lemma {:induction false} AndCommutative(a: seq<int>, b: seq<int>)
    requires Increasing(a) && Increasing(b)
    ensures AndOperation(a, b) == AndOperation(b, a)
  {
    IncreasingUnique(AndOperation(a, b), AndOperation(b, a));
  }

  lemma {:induction false} OrCommutative(a: seq<int>, b: seq<int>)
    requires Increasing(a) && Increasing(b)
    ensures OrOperation(a, b) == OrOperation(b, a)
  {
    IncreasingUnique(OrOperation(a, b), OrOperation(b, a));
  }

  lemma {:induction false} AndIdempotent(a: seq<int>)
    requires Increasing(a)
    ensures AndOperation(a, a) == a
  {
    IncreasingUnique(AndOperation(a, a), a);
  }

  lemma {:induction false} OrIdempotent(a: seq<int>)
    requires Increasing(a)
    ensures OrOperation(a, a) == a
  {
    IncreasingUnique(OrOperation(a, a), a);
  }

  lemma {:induction false} NotSelfEmpty(a: seq<int>)
    requires Increasing(a)
    ensures NotOperation(a, a) == []
  {
    IncreasingUnique(NotOperation(a, a), []);
  }

  lemma {:induction false} AndDistributesOverOr(a: seq<int>, b: seq<int>, c: seq<int>)
    requires Increasing(a) && Increasing(b) && Increasing(c)
    ensures AndOperation(a, OrOperation(b, c)) == OrOperation(AndOperation(a, b), AndOperation(a, c))
  {
    var bc := OrOperation(b, c);
    var ab := AndOperation(a, b);
    var ac := AndOperation(a, c);
    IncreasingUnique(AndOperation(a, bc), OrOperation(ab, ac));
  }

  // The occurrence sets of the library's own test of the three operations.

  lemma {:induction false} AndExample(a: seq<int>, b: seq<int>)
    requires a == [1, 3, 5, 7, 9] && b == [2, 3, 5, 8, 10]
    ensures AndOperation(a, b) == [3, 5]
  {
    assert Increasing(a) && Increasing(b);
    IncreasingUnique(AndOperation(a, b), [3, 5]);
  }

  lemma {:induction false} OrExample(a: seq<int>, b: seq<int>)
    requires a == [1, 3, 5, 7, 9] && b == [2, 3, 5, 8, 10]
    ensures OrOperation(a, b) == [1, 2, 3, 5, 7, 8, 9, 10]
  {
    assert Increasing(a) && Increasing(b);
    IncreasingUnique(OrOperation(a, b), [1, 2, 3, 5, 7, 8, 9, 10]);
  }

  lemma {:induction false} NotExample(a: seq<int>, b: seq<int>)
    requires a == [1, 3, 5, 7, 9] && b == [2, 3, 5, 8, 10]
    ensures NotOperation(a, b) == [1, 7, 9]
  {
    assert Increasing(a) && Increasing(b);
    IncreasingUnique(NotOperation(a, b), [1, 7, 9]);
  }

  // ---------------------------------------------------------------------
  // Proximity filters.

  /** Some element of `b` lies within `maxDistance` of `x`. */
  predicate NearSome(x: int, b: seq<int>, maxDistance: int) {
    exists k :: 0 <= k < |b| && x - maxDistance <= b[k] <= x + maxDistance
  }

  /** The elements of `a`, in order, that have some element of `b` within `maxDistance`. */
  function KeepNear(a: seq<int>, b: seq<int>, maxDistance: int): seq<int> {
    if a == [] then []
    else
      KeepNear(a[..|a| - 1], b, maxDistance) +
      (if NearSome(a[|a| - 1], b, maxDistance) then [a[|a| - 1]] else [])
  }

  /** Some element of `b` starts `len` to `len + maxDistance` after `x`. */
  predicate FollowedBy(x: int, b: seq<int>, len: int, maxDistance: int) {
    exists k :: 0 <= k < |b| && x + len <= b[k] <= x + len + maxDistance
  }

  /** The elements of `a`, in order, that some element of `b` follows within the window. */
  function KeepFollowed(a: seq<int>, b: seq<int>, len: int, maxDistance: int): seq<int> {
    if a == [] then []
    else
      KeepFollowed(a[..|a| - 1], b, len, maxDistance) +
      (if FollowedBy(a[|a| - 1], b, len, maxDistance) then [a[|a| - 1]] else [])
  }

  /** `KeepNear` keeps exactly the elements of `a` with a neighbour in `b`, and the order of `a`. */
  lemma {:induction false} KeepNearMembers(a: seq<int>, b: seq<int>, maxDistance: int)
    ensures forall x :: x in KeepNear(a, b, maxDistance) <==> x in a && NearSome(x, b, maxDistance)
    ensures Increasing(a) ==> Increasing(KeepNear(a, b, maxDistance))
  {
    if a != [] {
      var init := a[..|a| - 1];
      KeepNearMembers(init, b, maxDistance);
      assert a == init + [a[|a| - 1]];
      if Increasing(a) {
        var t := KeepNear(init, b, maxDistance);
        forall x | x in t ensures x < a[|a| - 1] {
          var i :| 0 <= i < |init| && init[i] == x;
        }
        assert Increasing(init);
        IncreasingSnoc(t, a[|a| - 1]);
      }
    }
  }

  lemma {:induction false} KeepFollowedMembers(a: seq<int>, b: seq<int>, len: int, maxDistance: int)
    ensures forall x :: x in KeepFollowed(a, b, len, maxDistance) <==>
      x in a && FollowedBy(x, b, len, maxDistance)
    ensures Increasing(a) ==> Increasing(KeepFollowed(a, b, len, maxDistance))
  {
    if a != [] {
      var init := a[..|a| - 1];
      KeepFollowedMembers(init, b, len, maxDistance);
      assert a == init + [a[|a| - 1]];
      if Increasing(a) {
        var t := KeepFollowed(init, b, len, maxDistance);
        forall x | x in t ensures x < a[|a| - 1] {
          var i :| 0 <= i < |init| && init[i] == x;
        }
        assert Increasing(init);
        IncreasingSnoc(t, a[|a| - 1]);
      }
    }
  }

  /**
   * `proximityAnd`: the elements of `a` that have an element of `b` within
   * `maxDistance`, found by one forward sweep over `b`.
   */
  method ProximityAnd(a: seq<int>, b: seq<int>, maxDistance: int) returns (result: seq<int>)
    ensures forall x :: x in result ==> x in a
    ensures NonDecreasing(a) && NonDecreasing(b) ==> result == KeepNear(a, b, maxDistance)
  {
    ghost var sorted := NonDecreasing(a) && NonDecreasing(b);
    result := [];
    var j := 0;
    var i := 0;
    while i < |a|
      invariant 0 <= i <= |a| && 0 <= j <= |b|
      invariant forall x :: x in result ==> x in a
      invariant sorted ==> result == KeepNear(a[..i], b, maxDistance)
      invariant sorted ==> forall k, i' :: 0 <= k < j && i <= i' < |a| ==> b[k] < a[i'] - maxDistance
    {
      // Move j forward to the first element of b inside the window of a[i].
      while j < |b| && b[j] < a[i] - maxDistance
        invariant 0 <= j <= |b|
        invariant sorted ==> forall k, i' :: 0 <= k < j && i <= i' < |a| ==> b[k] < a[i'] - maxDistance
      {
        j := j + 1;
      }
      var k := j;
      ghost var before := result;
      while k < |b| && b[k] <= a[i] + maxDistance
        invariant j <= k <= |b|
        invariant result == before
        invariant forall k' :: j <= k' < k ==> !(a[i] - maxDistance <= b[k'] <= a[i] + maxDistance)
      {
        var d := if b[k] - a[i] < 0 then a[i] - b[k] else b[k] - a[i];
        if d <= maxDistance {
          result := result + [a[i]];
          break;
        }
        k := k + 1;
      }
      assert a[..i + 1][..i] == a[..i];
      assert sorted ==> result == KeepNear(a[..i + 1], b, maxDistance) by {
        if sorted && result == before {
          forall k' | 0 <= k' < |b| ensures !(a[i] - maxDistance <= b[k'] <= a[i] + maxDistance) {
            if k' >= k {
              assert b[k] <= b[k'];
            }
          }
        }
      }
      i := i + 1;
    }
    assert a[..i] == a;
  }

  /**
   * `orderedProximity`: the elements `x` of `a` for which some element of `b`
   * starts between `x + patternALen` and `x + patternALen + maxDistance`.
   * The default distance 0 asks for `b` to start exactly where `a` ends.
   */
  method OrderedProximity(a: seq<int>, b: seq<int>, patternALen: int, maxDistance: int := 0)
    returns (result: seq<int>)
    ensures forall x :: x in result ==> x in a
    ensures NonDecreasing(a) && NonDecreasing(b) ==>
      result == KeepFollowed(a, b, patternALen, maxDistance)
  {
    ghost var sorted := NonDecreasing(a) && NonDecreasing(b);
    result := [];
    var j := 0;
    var i := 0;
    while i < |a|
      invariant 0 <= i <= |a| && 0 <= j <= |b|
      invariant forall x :: x in result ==> x in a
      invariant sorted ==> result == KeepFollowed(a[..i], b, patternALen, maxDistance)
      invariant sorted ==> forall k, i' :: 0 <= k < j && i <= i' < |a| ==> b[k] < a[i'] + patternALen
    {
      var endOfA := a[i] + patternALen;
      while j < |b| && b[j] < endOfA
        invariant 0 <= j <= |b|
        invariant sorted ==> forall k, i' :: 0 <= k < j && i <= i' < |a| ==> b[k] < a[i'] + patternALen
      {
        j := j + 1;
      }
      // The source's inner `while` leaves after its first iteration: it is a test.
      var k := j;
      ghost var before := result;
      if k < |b| && b[k] <= endOfA + maxDistance {
        result := result + [a[i]];
      }
      assert a[..i + 1][..i] == a[..i];
      assert sorted ==> result == KeepFollowed(a[..i + 1], b, patternALen, maxDistance) by {
        if sorted && result == before {
          forall k' | 0 <= k' < |b| ensures !(endOfA <= b[k'] <= endOfA + maxDistance) {
            if k' >= k {
              assert b[k] <= b[k'];
            }
          }
        }
      }
      i := i + 1;
    }
    assert a[..i] == a;
  }

  // ---------------------------------------------------------------------
  // n-ary folds.

  /** Left fold of `AndOperation` over a non-empty list of result sets. */
  function FoldAnd(results: seq<seq<int>>): seq<int>
    requires |results| > 0
  {
    if |results| == 1 then results[0]
    else AndOperation(FoldAnd(results[..|results| - 1]), results[|results| - 1])
  }

  /** Left fold of `OrOperation` over a non-empty list of result sets. */
  function FoldOr(results: seq<seq<int>>): seq<int>
    requires |results| > 0
  {
    if |results| == 1 then results[0]
    else OrOperation(FoldOr(results[..|results| - 1]), results[|results| - 1])
  }

  /** One step of the AND fold keeps exactly the offsets common to one more list. */
  lemma {:induction false} AndStep(results: seq<seq<int>>, i: int, acc: seq<int>)
    requires 0 < i < |results|
    requires Increasing(acc) && Increasing(results[i])
    requires forall x :: x in acc <==> forall j :: 0 <= j < i ==> x in results[j]
    ensures var r := AndOperation(acc, results[i]);
      Increasing(r) && forall x :: x in r <==> forall j :: 0 <= j < i + 1 ==> x in results[j]
  {
    var r := AndOperation(acc, results[i]);
    forall x ensures x in r <==> forall j :: 0 <= j < i + 1 ==> x in results[j] {
      if forall j :: 0 <= j < i + 1 ==> x in results[j] {
        assert x in acc;
      }
    }
  }

  /** `multiAnd`: empty for no lists, the first list for one, otherwise the left fold of AND. */
  method MultiAnd(results: seq<seq<int>>) returns (result: seq<int>)
    ensures |results| == 0 ==> result == []
    ensures |results| > 0 ==> result == FoldAnd(results)
    ensures |results| > 0 && (forall i :: 0 <= i < |results| ==> Increasing(results[i])) ==>
      Increasing(result) &&
      forall x :: x in result <==> forall i :: 0 <= i < |results| ==> x in results[i]
  {
    if |results| == 0 {
      return [];
    }
    ghost var allIncreasing := forall i :: 0 <= i < |results| ==> Increasing(results[i]);
    result := results[0];
    for i := 1 to |results|
      invariant result == FoldAnd(results[..i])
      invariant allIncreasing ==>
        Increasing(result) && forall x :: x in result <==> forall i' :: 0 <= i' < i ==> x in results[i']
    {
      assert results[..i + 1][..i] == results[..i];
      if allIncreasing {
        AndStep(results, i, result);
      }
      result := AndOperation(result, results[i]);
    }
    assert results[..|results|] == results;
  }

  /** `multiOr`: empty for no lists, the first list for one, otherwise the left fold of OR. */
  method MultiOr(results: seq<seq<int>>) returns (result: seq<int>)
    ensures |results| == 0 ==> result == []
    ensures |results| > 0 ==> result == FoldOr(results)
    ensures forall x :: x in result <==> exists i :: 0 <= i < |results| && x in results[i]
    ensures (forall i :: 0 <= i < |results| ==> Increasing(results[i])) ==> Increasing(result)
  {
    if |results| == 0 {
      return [];
    }
    ghost var allIncreasing := forall i :: 0 <= i < |results| ==> Increasing(results[i]);
    result := results[0];
    for i := 1 to |results|
      invariant result == FoldOr(results[..i])
      invariant forall x :: x in result <==> exists i' :: 0 <= i' < i && x in results[i']
      invariant allIncreasing ==> Increasing(result)
    {
      assert results[..i + 1][..i] == results[..i];
      result := OrOperation(result, results[i]);
    }
    assert results[..|results|] == results;
  }
}
