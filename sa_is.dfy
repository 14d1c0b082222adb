/**
 * The suffix-array builder of `SuffixArray`: S/L classification of the
 * positions, the LMS predicate, the character buckets, the single
 * induced-sorting pass of `buildSAIS`, and Kasai's LCP computation.
 *
 * Code points are non-negative `int`s; a vector is an `array` where the
 * source writes into it in place.  Where the source would index a vector
 * out of range (undefined behaviour in C++) the model raises a `fault`
 * flag and stops instead.
 */
module SaIs {
  import opened Sorting
  import opened Suffixes

  /** Every code point of `s` is a valid bucket index below `alphabet`. */
  predicate InAlphabet(s: seq<int>, alphabet: int) {
    forall i :: 0 <= i < |s| ==> 0 <= s[i] < alphabet
  }

  // ---------------------------------------------------------------------
  // S/L types and LMS positions.
  // ---------------------------------------------------------------------

  /**
   * `computeTypes`' classification of position `i`: L-type (true) or
   * S-type (false).  The last position is S; otherwise a rise makes S, a
   * fall makes L and a repeat copies its right neighbour's type.
   */
  predicate IsL(s: seq<int>, i: nat)
    requires i < |s|
    decreases |s| - i
  {
    if i == |s| - 1 then false
    else if s[i] < s[i + 1] then false
    else if s[i] > s[i + 1] then true
    else IsL(s, i + 1)
  }

  /** The whole `types` vector. */
  function Types(s: seq<int>): (t: seq<bool>)
    ensures |t| == |s|
  {
    seq(|s|, i requires 0 <= i < |s| => IsL(s, i))
  }

  /** `isLMS`: an S-type position whose left neighbour is L-type; position 0 never is. */
  predicate IsLms(types: seq<bool>, i: int)
    requires 0 <= i < |types|
  {
    i != 0 && !types[i] && types[i - 1]
  }

  /** `computeTypes`: fills `types` from the right end. */
  method ComputeTypes(s: seq<int>) returns (types: array<bool>)
    requires |s| >= 2
    ensures fresh(types)
    ensures types[..] == Types(s)
  {
    types := new bool[|s|];
    types[|s| - 1] := false;
    var i := |s| - 2;
    while i >= 0
      invariant -1 <= i <= |s| - 2
      invariant forall k :: i < k < |s| ==> types[k] == IsL(s, k)
    {
      if s[i] < s[i + 1] {
        types[i] := false;
      } else if s[i] > s[i + 1] {
        types[i] := true;
      } else {
        types[i] := types[i + 1];
      }
      i := i - 1;
    }
  }

  /**
   * What the classification means: `i` is L-type exactly when the run of
   * equal code points starting at `i` ends in a smaller code point.
   */
  lemma {:induction false} LTypeMeaning(s: seq<int>, i: nat)
    requires i < |s|
    ensures IsL(s, i) <==>
      exists j :: i < j < |s| && s[j] < s[i] && forall k :: i <= k < j ==> s[k] == s[i]
  {
    if IsL(s, i) {
      var j := RunEnd(s, i);
    }
    if exists j :: i < j < |s| && s[j] < s[i] && forall k :: i <= k < j ==> s[k] == s[i] {
      var j :| i < j < |s| && s[j] < s[i] && forall k :: i <= k < j ==> s[k] == s[i];
      RunEndIsL(s, i, j);
    }
  }

  /** Where the run of an L-type position ends, in a smaller code point. */
  lemma {:induction false} RunEnd(s: seq<int>, i: nat) returns (j: nat)
    requires i < |s| && IsL(s, i)
    ensures i < j < |s| && s[j] < s[i] && forall k :: i <= k < j ==> s[k] == s[i]
    decreases |s| - i
  {
    if s[i] > s[i + 1] {
      j := i + 1;
    } else {
      j := RunEnd(s, i + 1);
    }
  }

  /** A run that ends in a smaller code point starts at an L-type position. */
  lemma {:induction false} RunEndIsL(s: seq<int>, i: nat, j: nat)
    requires i < j < |s| && s[j] < s[i] && forall k :: i <= k < j ==> s[k] == s[i]
    ensures IsL(s, i)
    decreases j - i
  {
    if j > i + 1 {
      assert s[i + 1] == s[i];
      RunEndIsL(s, i + 1, j);
    }
  }

  /** An L-type suffix is larger than the suffix just after it. */
  lemma {:induction false} LTypeSuffix(s: seq<int>, i: nat)
    requires i < |s| && IsL(s, i)
    ensures LexLess(s[i + 1..], s[i..])
    decreases |s| - i
  {
    if s[i] == s[i + 1] {
      LTypeSuffix(s, i + 1);
      LexLessCons(s, i + 1, i);
    } else {
      assert s[i..][0] == s[i] && s[i + 1..] != [] && s[i + 1..][0] == s[i + 1];
    }
  }

  /**
   * An S-type suffix that a different code point follows somewhere is
   * smaller than the suffix just after it.
   */
  lemma {:induction false} STypeSuffix(s: seq<int>, i: nat, j: nat)
    requires i < j < |s| && s[j] != s[i] && !IsL(s, i)
    ensures LexLess(s[i..], s[i + 1..])
    decreases |s| - i
  {
    if s[i] == s[i + 1] {
      STypeSuffix(s, i + 1, j);
      LexLessCons(s, i, i + 1);
    } else {
      assert s[i..][0] == s[i] && s[i + 1..][0] == s[i + 1];
    }
  }

  /**
   * Without a sentinel the classification departs from the true suffix
   * order on a final run of equal code points: in `c c` position 0 is
   * S-type, yet the suffix after it is the smaller one.
   */
  lemma {:induction false} FinalRunIsS(s: seq<int>, c: int)
    requires s == [c, c]
    ensures !IsL(s, 0) && LexLess(s[1..], s[0..])
  {
    assert !IsL(s, 1);
    assert s[1..][1..] == [];
    assert s[0..][1..] == s[1..];
  }

  /** Position 0 is never LMS, and an LMS position follows a fall in the code points. */
  lemma {:induction false} LmsFollowsFall(s: seq<int>, i: nat)
    requires i < |s| && IsLms(Types(s), i)
    ensures 0 < i && s[i - 1] > s[i]
  {
    assert IsL(s, i - 1) && !IsL(s, i);
  }

  /** A text with no fall anywhere has no L-type position. */
  lemma {:induction false} SortedHasNoL(s: seq<int>, i: nat)
    requires NonDecreasing(s) && i < |s|
    ensures !IsL(s, i)
    decreases |s| - i
  {
    if i < |s| - 1 {
      SortedHasNoL(s, i + 1);
    }
  }

  /** Some LMS position follows every L-type position (the last position is S-type). */
  lemma {:induction false} LmsAfter(s: seq<int>, i: nat) returns (j: nat)
    requires i < |s| && IsL(s, i)
    ensures i < j < |s| && IsLms(Types(s), j)
    decreases |s| - i
  {
    if IsL(s, i + 1) {
      j := LmsAfter(s, i + 1);
    } else {
      j := i + 1;
    }
  }

  /** A text has no LMS position exactly when its code points never fall. */
  lemma {:induction false} NoLmsIffSorted(s: seq<int>)
    ensures (forall i :: 0 <= i < |s| ==> !IsLms(Types(s), i)) <==> NonDecreasing(s)
  {
    if NonDecreasing(s) {
      forall i | 0 < i < |s| ensures !IsLms(Types(s), i) {
        SortedHasNoL(s, i - 1);
      }
    } else {
      var a, b :| 0 <= a < b < |s| && s[a] > s[b];
      var f := Fall(s, a, b);
      var j := LmsAfter(s, f);
    }
  }

  /** Between two offsets whose code points fall, some neighbouring pair falls. */
  lemma {:induction false} Fall(s: seq<int>, a: nat, b: nat) returns (f: nat)
    requires a < b < |s| && s[a] > s[b]
    ensures a <= f < b && s[f] > s[f + 1] && IsL(s, f)
    decreases b - a
  {
    if s[a] > s[a + 1] {
      f := a;
    } else {
      f := Fall(s, a + 1, b);
    }
  }

  // ---------------------------------------------------------------------
  // Buckets: one per code point, in code-point order.
  // ---------------------------------------------------------------------

  /** Occurrences of code point `c` in `s`: the size of bucket `c`. */
  function Count(s: seq<int>, c: int): (r: nat)
    ensures r <= |s|
  {
    if s == [] then 0 else Count(s[..|s| - 1], c) + (if s[|s| - 1] == c then 1 else 0)
  }

  /** Positions of `s` whose code point is below `c`: where bucket `c` starts. */
  function Below(s: seq<int>, c: int): (r: nat)
    ensures r <= |s|
  {
    if s == [] then 0 else Below(s[..|s| - 1], c) + (if s[|s| - 1] < c then 1 else 0)
  }

  /** Bucket `c` ends where bucket `c + 1` starts: its start plus its size. */
  lemma {:induction false} BelowNext(s: seq<int>, c: int)
    ensures Below(s, c + 1) == Below(s, c) + Count(s, c)
  {
    if s != [] {
      BelowNext(s[..|s| - 1], c);
    }
  }

  /** Buckets come in code-point order. */
  lemma {:induction false} BelowMonotone(s: seq<int>, c: int, d: int)
    requires c <= d
    ensures Below(s, c) <= Below(s, d)
  {
    if s != [] {
      BelowMonotone(s[..|s| - 1], c, d);
    }
  }

  /** The first bucket starts at slot 0 and the last one ends at slot `|s|`. */
  lemma {:induction false} BucketsSpan(s: seq<int>, alphabet: int)
    requires InAlphabet(s, alphabet)
    ensures Below(s, 0) == 0 && Below(s, alphabet) == |s|
  {
    if s != [] {
      var t := s[..|s| - 1];
      assert InAlphabet(t, alphabet) by {
        forall i | 0 <= i < |t| ensures 0 <= t[i] < alphabet {
          assert t[i] == s[i];
        }
      }
      BucketsSpan(t, alphabet);
    }
  }

  /** Every slot belongs to one bucket. */
  lemma {:induction false} BucketOf(s: seq<int>, alphabet: int, k: int) returns (c: int)
    requires InAlphabet(s, alphabet) && 0 <= k < |s|
    ensures 0 <= c < alphabet && Below(s, c) <= k < Below(s, c + 1)
  {
    BucketsSpan(s, alphabet);
    c := alphabet - 1;
    while Below(s, c) > k
      invariant 0 <= c < alphabet && k < Below(s, c + 1)
      decreases c
    {
      c := c - 1;
    }
  }

  /** Adding one code point to a prefix adds it to its bucket's count. */
  lemma {:induction false} CountSnoc(s: seq<int>, i: nat, c: int)
    requires i < |s|
    ensures Count(s[..i + 1], c) == Count(s[..i], c) + (if s[i] == c then 1 else 0)
  {
    assert s[..i + 1][..i] == s[..i];
  }

  /**
   * The bucket loops of `buildSAIS`: count each code point, then take
   * running sums for the start and the end of every bucket.
   */
  method Buckets(s: seq<int>, alphabet: nat) returns (starts: array<int>, ends: array<int>)
    requires InAlphabet(s, alphabet)
    ensures fresh(starts) && fresh(ends)
    ensures starts.Length == alphabet && ends.Length == alphabet
    ensures forall c :: 0 <= c < alphabet ==> starts[c] == Below(s, c) && ends[c] == Below(s, c + 1)
  {
    var counts := new int[alphabet](_ => 0);
    var i := 0;
    while i < |s|
      invariant 0 <= i <= |s|
      invariant forall c :: 0 <= c < alphabet ==> counts[c] == Count(s[..i], c)
    {
      forall c | 0 <= c < alphabet {
        CountSnoc(s, i, c);
      }
      counts[s[i]] := counts[s[i]] + 1;
      i := i + 1;
    }
    assert s[..|s|] == s;
    starts := new int[alphabet];
    ends := new int[alphabet];
    BucketsSpan(s, alphabet);
    var sum := 0;
    var c := 0;
    while c < alphabet
      invariant 0 <= c <= alphabet && sum == Below(s, c)
      invariant forall d :: 0 <= d < alphabet ==> counts[d] == Count(s, d)
      invariant forall d :: 0 <= d < c ==> starts[d] == Below(s, d) && ends[d] == Below(s, d + 1)
    {
      BelowNext(s, c);
      starts[c] := sum;
      sum := sum + counts[c];
      ends[c] := sum;
      c := c + 1;
    }
  }

  // ---------------------------------------------------------------------
  // The LMS phase of `induceSort`.
  // ---------------------------------------------------------------------

  /** The LMS positions at or after `i` whose code point is `c`, in increasing order. */
  function LmsFrom(s: seq<int>, c: int, i: nat): (r: seq<int>)
    requires i <= |s|
    decreases |s| - i
  {
    if i == |s| then []
    else (if IsLms(Types(s), i) && s[i] == c then [i] else []) + LmsFrom(s, c, i + 1)
  }

  /** `LmsFrom` lists exactly the LMS positions with code point `c` from `i` on, once each, ascending. */
  lemma {:induction false} LmsFromMeaning(s: seq<int>, c: int, i: nat)
    requires i <= |s|
    ensures Increasing(LmsFrom(s, c, i))
    ensures forall j :: j in LmsFrom(s, c, i) <==> i <= j < |s| && IsLms(Types(s), j) && s[j] == c
    decreases |s| - i
  {
    if i < |s| {
      LmsFromMeaning(s, c, i + 1);
      var t := LmsFrom(s, c, i + 1);
      if IsLms(Types(s), i) && s[i] == c {
        IncreasingCons(i, t);
      }
    }
  }

  /** A bucket has room for its LMS positions: they are among its code points. */
  lemma {:induction false} LmsFromFits(s: seq<int>, c: int, i: nat)
    requires i <= |s|
    ensures |LmsFrom(s, c, i)| + Count(s[..i], c) <= Count(s, c)
    decreases |s| - i
  {
    if i == |s| {
      assert s[..i] == s;
    } else {
      LmsFromFits(s, c, i + 1);
      CountSnoc(s, i, c);
    }
  }

  /** A text whose code points never fall has no LMS position, so nothing to place. */
  lemma {:induction false} SortedLmsEmpty(s: seq<int>, c: int, i: nat)
    requires i <= |s| && NonDecreasing(s)
    ensures LmsFrom(s, c, i) == []
    decreases |s| - i
  {
    if i < |s| {
      NoLmsIffSorted(s);
      SortedLmsEmpty(s, c, i + 1);
    }
  }

  /** Two different buckets do not overlap. */
  lemma {:induction false} BucketsDisjoint(s: seq<int>, c: int)
    ensures forall e :: e <= c ==> Below(s, e) <= Below(s, c)
    ensures forall d :: c < d ==> Below(s, c + 1) <= Below(s, d)
  {
    forall e | e <= c ensures Below(s, e) <= Below(s, c) {
      BelowMonotone(s, e, c);
    }
    forall d | c < d ensures Below(s, c + 1) <= Below(s, d) {
      BelowMonotone(s, c + 1, d);
    }
  }

  /** The lowest slot of bucket `c` that its LMS positions from `i` on take. */
  function LmsTop(s: seq<int>, c: int, i: nat): int
    requires i <= |s|
  {
    Below(s, c + 1) - |LmsFrom(s, c, i)|
  }

  /**
   * What slot `k` of bucket `c` holds once the LMS positions from `i` on
   * are placed: -1 below the bucket's filled top, the positions ascending
   * from there.
   */
  function SlotValue(s: seq<int>, c: int, i: nat, k: int): int
    requires i <= |s|
  {
    var top := LmsTop(s, c, i);
    if k < top || k >= Below(s, c + 1) then -1 else LmsFrom(s, c, i)[k - top]
  }

  /** Every slot of every bucket holds what `SlotValue` says. */
  predicate Placed(s: seq<int>, sa: seq<int>, alphabet: int, i: nat)
    requires i <= |s| && |sa| == |s|
  {
    forall c, k :: 0 <= c < alphabet && Below(s, c) <= k < Below(s, c + 1) ==> sa[k] == SlotValue(s, c, i, k)
  }

  /**
   * The first phase of `induceSort`: every slot becomes -1, then each LMS
   * position, scanned from the right, goes into the highest free slot of
   * its bucket.  Afterwards each bucket holds its LMS positions in its top
   * slots, ascending, and -1 below them.
   */
  method PlaceLms(s: seq<int>, types: array<bool>, ends: array<int>, sa: array<int>)
    requires types[..] == Types(s) && sa.Length == |s| && sa != ends
    requires InAlphabet(s, ends.Length)
    requires forall c :: 0 <= c < ends.Length ==> ends[c] == Below(s, c + 1)
    modifies sa
    ensures Placed(s, sa[..], ends.Length, 0)
  {
    forall k | 0 <= k < sa.Length {
      sa[k] := -1;
    }
    var tails := new int[ends.Length];
    forall c | 0 <= c < ends.Length {
      tails[c] := ends[c];
    }
    var i := |s|;
    while i > 0
      invariant 0 <= i <= |s| && tails.Length == ends.Length
      invariant forall c :: 0 <= c < tails.Length ==> tails[c] == LmsTop(s, c, i)
      invariant Placed(s, sa[..], tails.Length, i)
    {
      i := i - 1;
      if IsLms(types[..], i) {
        PlaceOne(s, tails, sa, i);
      } else {
        PlaceNone(s, sa[..], tails.Length, i);
      }
    }
  }

  /** A position that is not LMS changes no bucket. */
  lemma {:induction false} PlaceNone(s: seq<int>, sa: seq<int>, alphabet: int, i: nat)
    requires i < |s| && |sa| == |s| && !IsLms(Types(s), i)
    requires Placed(s, sa, alphabet, i + 1)
    ensures Placed(s, sa, alphabet, i)
    ensures forall c :: LmsTop(s, c, i) == LmsTop(s, c, i + 1)
  {
    forall c ensures LmsTop(s, c, i) == LmsTop(s, c, i + 1) {
      assert LmsFrom(s, c, i) == LmsFrom(s, c, i + 1);
    }
    forall c, k | 0 <= c < alphabet && Below(s, c) <= k < Below(s, c + 1)
      ensures sa[k] == SlotValue(s, c, i, k)
    {
      assert LmsFrom(s, c, i) == LmsFrom(s, c, i + 1);
      assert sa[k] == SlotValue(s, c, i + 1, k);
    }
  }

  /** One step of the LMS phase: position `i` goes just below the filled top of its bucket. */
  method PlaceOne(s: seq<int>, tails: array<int>, sa: array<int>, i: nat)
    requires i < |s| && IsLms(Types(s), i) && sa.Length == |s| && sa != tails
    requires InAlphabet(s, tails.Length)
    requires forall c :: 0 <= c < tails.Length ==> tails[c] == LmsTop(s, c, i + 1)
    requires Placed(s, sa[..], tails.Length, i + 1)
    modifies tails, sa
    ensures forall c :: 0 <= c < tails.Length ==> tails[c] == LmsTop(s, c, i)
    ensures Placed(s, sa[..], tails.Length, i)
  {
    var c := s[i];
    var t := tails[c] - 1;
    PlaceTops(s, i);
    tails[c] := t;
    ghost var before := sa[..];
    sa[t] := i;
    assert sa[..] == before[t := i];
    PlaceStep(s, before, tails.Length, i);
  }

  /** Placing LMS position `i` moves the top of its own bucket down by one and no other. */
  lemma {:induction false} PlaceTops(s: seq<int>, i: nat)
    requires i < |s| && IsLms(Types(s), i)
    ensures Below(s, s[i]) <= LmsTop(s, s[i], i) == LmsTop(s, s[i], i + 1) - 1
    ensures forall d :: d != s[i] ==> LmsTop(s, d, i) == LmsTop(s, d, i + 1)
  {
    var c := s[i];
    LmsFromFits(s, c, i);
    BelowNext(s, c);
    assert LmsFrom(s, c, i) == [i] + LmsFrom(s, c, i + 1);
    forall d | d != c ensures LmsTop(s, d, i) == LmsTop(s, d, i + 1) {
      assert LmsFrom(s, d, i) == LmsFrom(s, d, i + 1);
    }
  }

  /** Writing `i` into the slot `PlaceTops` names turns the layout for `i + 1` into the layout for `i`. */
  lemma {:induction false} PlaceStep(s: seq<int>, before: seq<int>, alphabet: int, i: nat)
    requires i < |s| && IsLms(Types(s), i) && |before| == |s| && InAlphabet(s, alphabet)
    requires Placed(s, before, alphabet, i + 1)
    requires Below(s, s[i]) <= LmsTop(s, s[i], i) < Below(s, s[i] + 1)
    ensures Placed(s, before[LmsTop(s, s[i], i) := i], alphabet, i)
  {
    var t := LmsTop(s, s[i], i);
    var after := before[t := i];
    forall d, k | 0 <= d < alphabet && Below(s, d) <= k < Below(s, d + 1)
      ensures after[k] == SlotValue(s, d, i, k)
    {
      SlotStep(s, before, i, d, k);
    }
  }

  /** `PlaceStep` for one slot `k` of bucket `d`. */
  lemma {:induction false} SlotStep(s: seq<int>, before: seq<int>, i: nat, d: int, k: int)
    requires i < |s| && IsLms(Types(s), i) && |before| == |s|
    requires Below(s, d) <= k < Below(s, d + 1)
    requires before[k] == SlotValue(s, d, i + 1, k)
    requires Below(s, s[i]) <= LmsTop(s, s[i], i) < Below(s, s[i] + 1)
    ensures before[LmsTop(s, s[i], i) := i][k] == SlotValue(s, d, i, k)
  {
    var c := s[i];
    PlaceTops(s, i);
    if d == c {
      SlotStepOwn(s, before, i, k);
    } else {
      BucketsDisjoint(s, c);
      assert LmsTop(s, d, i) == LmsTop(s, d, i + 1);
    }
  }

  /** `SlotStep` inside the bucket of position `i` itself. */
  lemma {:induction false} SlotStepOwn(s: seq<int>, before: seq<int>, i: nat, k: int)
    requires i < |s| && IsLms(Types(s), i) && |before| == |s|
    requires Below(s, s[i]) <= k < Below(s, s[i] + 1)
    requires before[k] == SlotValue(s, s[i], i + 1, k)
    requires Below(s, s[i]) <= LmsTop(s, s[i], i) == LmsTop(s, s[i], i + 1) - 1
    ensures before[LmsTop(s, s[i], i) := i][k] == SlotValue(s, s[i], i, k)
  {
    var c := s[i];
    var t := LmsTop(s, c, i);
    var tail := LmsFrom(s, c, i + 1);
    assert LmsFrom(s, c, i) == [i] + tail;
    if k > t {
      assert SlotValue(s, c, i, k) == ([i] + tail)[k - t] == tail[k - t - 1];
    }
  }

  /** A text whose code points never fall leaves every slot at -1 after the LMS phase. */
  lemma {:induction false} SortedPlacesNothing(s: seq<int>, sa: seq<int>, alphabet: int)
    requires InAlphabet(s, alphabet) && |sa| == |s| && NonDecreasing(s)
    requires Placed(s, sa, alphabet, 0)
    ensures forall k :: 0 <= k < |sa| ==> sa[k] == -1
  {
    forall k | 0 <= k < |sa| ensures sa[k] == -1 {
      var c := BucketOf(s, alphabet, k);
      SortedLmsEmpty(s, c, 0);
    }
  }

  // ---------------------------------------------------------------------
  // The induction passes of `induceSort` and `buildSAIS` as written.
  // ---------------------------------------------------------------------

  /** Every slot holds -1 (empty) or a text offset. */
  predicate Entries(sa: seq<int>, n: int) {
    forall k :: 0 <= k < |sa| ==> -1 <= sa[k] < n
  }

  /** A slot value of the LMS phase is empty or an LMS position. */
  lemma {:induction false} SlotEntry(s: seq<int>, c: int, k: int)
    ensures var v := SlotValue(s, c, 0, k); v == -1 || (0 <= v < |s| && IsLms(Types(s), v))
  {
    var top := LmsTop(s, c, 0);
    if top <= k < Below(s, c + 1) {
      LmsFromMeaning(s, c, 0);
      assert LmsFrom(s, c, 0)[k - top] in LmsFrom(s, c, 0);
    }
  }

  /** After the LMS phase every slot is empty or holds an LMS position. */
  lemma {:induction false} PlacedEntries(s: seq<int>, sa: seq<int>, alphabet: int)
    requires InAlphabet(s, alphabet) && |sa| == |s| && Placed(s, sa, alphabet, 0)
    ensures Entries(sa, |s|)
    ensures forall k :: 0 <= k < |sa| && sa[k] != -1 ==> 0 <= sa[k] < |s| && IsLms(Types(s), sa[k])
  {
    forall k | 0 <= k < |sa|
      ensures sa[k] == -1 || (0 <= sa[k] < |s| && IsLms(Types(s), sa[k]))
    {
      var c := BucketOf(s, alphabet, k);
      SlotEntry(s, c, k);
    }
  }

  /**
   * The L-type pass of `induceSort`: scanning left to right, the L-type
   * left neighbour of each filled slot's offset goes to the head of its
   * bucket.  `fault` reports a head that has run past the end of `sa`,
   * where the source writes out of range.
   */
  method InduceL(s: seq<int>, types: array<bool>, starts: array<int>, sa: array<int>) returns (fault: bool)
    requires types[..] == Types(s) && sa.Length == |s| && sa != starts
    requires InAlphabet(s, starts.Length)
    requires forall c :: 0 <= c < starts.Length ==> starts[c] >= 0
    requires Entries(sa[..], |s|)
    modifies sa
    ensures Entries(sa[..], |s|)
    ensures forall k :: 0 <= k < |s| ==> sa[k] == old(sa[k]) || (0 <= sa[k] && IsL(s, sa[k]))
    ensures (forall k :: 0 <= k < |s| ==> old(sa[k]) == -1) ==> !fault && sa[..] == old(sa[..])
  {
    var heads := new int[starts.Length];
    forall c | 0 <= c < starts.Length {
      heads[c] := starts[c];
    }
    var i := 0;
    while i < |s|
      invariant 0 <= i <= |s| && heads.Length == starts.Length
      invariant Entries(sa[..], |s|)
      invariant forall k :: 0 <= k < |s| ==> sa[k] == old(sa[k]) || (0 <= sa[k] && IsL(s, sa[k]))
      invariant forall c :: 0 <= c < heads.Length ==> heads[c] >= 0
      invariant (forall k :: 0 <= k < |s| ==> old(sa[k]) == -1) ==> sa[..] == old(sa[..])
    {
      var p := sa[i];
      if p > 0 && types[p - 1] {
        var c := s[p - 1];
        if heads[c] >= |s| {
          return true;
        }
        sa[heads[c]] := p - 1;
        heads[c] := heads[c] + 1;
      }
      i := i + 1;
    }
    return false;
  }

  /**
   * The S-type pass of `induceSort`: scanning right to left, the S-type
   * left neighbour of each filled slot's offset goes to the tail of its
   * bucket.  `fault` reports a tail that has run below slot 0.
   */
  method InduceS(s: seq<int>, types: array<bool>, ends: array<int>, sa: array<int>) returns (fault: bool)
    requires types[..] == Types(s) && sa.Length == |s| && sa != ends
    requires InAlphabet(s, ends.Length)
    requires forall c :: 0 <= c < ends.Length ==> ends[c] <= |s|
    requires Entries(sa[..], |s|)
    modifies sa
    ensures Entries(sa[..], |s|)
    ensures forall k :: 0 <= k < |s| ==> sa[k] == old(sa[k]) || (0 <= sa[k] && !IsL(s, sa[k]))
    ensures (forall k :: 0 <= k < |s| ==> old(sa[k]) == -1) ==> !fault && sa[..] == old(sa[..])
  {
    var tails := new int[ends.Length];
    forall c | 0 <= c < ends.Length {
      tails[c] := ends[c];
    }
    var i := |s|;
    while i > 0
      invariant 0 <= i <= |s| && tails.Length == ends.Length
      invariant Entries(sa[..], |s|)
      invariant forall k :: 0 <= k < |s| ==> sa[k] == old(sa[k]) || (0 <= sa[k] && !IsL(s, sa[k]))
      invariant forall c :: 0 <= c < tails.Length ==> tails[c] <= |s|
      invariant (forall k :: 0 <= k < |s| ==> old(sa[k]) == -1) ==> sa[..] == old(sa[..])
    {
      i := i - 1;
      var p := sa[i];
      if p > 0 && !types[p - 1] {
        var c := s[p - 1];
        tails[c] := tails[c] - 1;
        if tails[c] < 0 {
          return true;
        }
        sa[tails[c]] := p - 1;
      }
    }
    return false;
  }

  /**
   * `buildSAIS` as written: nothing for an empty text, `[0]` for one code
   * point, otherwise types, buckets and one `induceSort` pass, with no LMS
   * renaming and no recursion.  Each slot ends up empty (-1) or holding a
   * text offset; a text whose code points never fall has no LMS position,
   * and every slot stays empty.
   */
  method BuildSais(s: seq<int>, sa: array<int>, alphabet: nat) returns (fault: bool)
    requires sa.Length == |s| && InAlphabet(s, alphabet)
    modifies sa
    ensures |s| == 1 ==> sa[..] == [0] && !fault
    ensures Entries(sa[..], |s|)
    ensures |s| >= 2 && NonDecreasing(s) ==> !fault && forall k :: 0 <= k < |s| ==> sa[k] == -1
  {
    if |s| == 0 {
      return false;
    }
    if |s| == 1 {
      sa[0] := 0;
      assert sa[..] == [0];
      return false;
    }
    var types := ComputeTypes(s);
    var starts, ends := Buckets(s, alphabet);
    BucketsSpan(s, alphabet);
    forall c | 0 <= c < alphabet ensures 0 <= starts[c] && ends[c] <= |s| {
      BelowMonotone(s, 0, c);
      BelowMonotone(s, c + 1, alphabet);
    }
    PlaceLms(s, types, ends, sa);
    PlacedEntries(s, sa[..], alphabet);
    if NonDecreasing(s) {
      SortedPlacesNothing(s, sa[..], alphabet);
    }
    fault := InduceL(s, types, starts, sa);
    if fault {
      return;
    }
    fault := InduceS(s, types, ends, sa);
  }

  /** A concrete text with no LMS position: "ab" never falls. */
  lemma {:induction false} AbHasNoLms(s: seq<int>)
    requires s == [97, 98]
    ensures |s| >= 2 && NonDecreasing(s)
    ensures forall i :: 0 <= i < |s| ==> !IsLms(Types(s), i)
  {
    NoLmsIffSorted(s);
  }

  // ---------------------------------------------------------------------
  // The alphabet size of the constructor.
  // ---------------------------------------------------------------------

  /** The largest code point of `text`, starting from 0 as the constructor does. */
  method MaxChar(text: seq<int>) returns (m: int)
    ensures m >= 0 && forall k :: 0 <= k < |text| ==> text[k] <= m
    ensures m == 0 || m in text
  {
    m := 0;
    var i := 0;
    while i < |text|
      invariant 0 <= i <= |text| && m >= 0
      invariant forall k :: 0 <= k < i ==> text[k] <= m
      invariant m == 0 || m in text
    {
      if text[i] > m {
        m := text[i];
      }
      i := i + 1;
    }
  }

  // ---------------------------------------------------------------------
  // Kasai's LCP algorithm (`computeLCP`).
  // ---------------------------------------------------------------------

  /** `rank` inverts the permutation `sa`. */
  predicate Inverse(sa: seq<int>, rank: seq<int>) {
    |rank| == |sa| && forall p :: 0 <= p < |rank| ==> 0 <= rank[p] < |sa| && sa[rank[p]] == p
  }

  /** What `computeLCP` promises: slot 0 holds 0, slot r the common prefix of the suffixes at r-1 and r. */
  predicate LcpOf(text: seq<int>, sa: seq<int>, lcp: seq<int>)
    requires IsPermutation(sa, |text|)
  {
    |lcp| == |text| && (|text| > 0 ==> lcp[0] == 0) &&
    forall r :: 0 < r < |text| ==> lcp[r] == CommonPrefix(text[sa[r - 1]..], text[sa[r]..])
  }

  /** The common prefix grows past `h` exactly when both sequences agree at `h`. */
  lemma {:induction false} CommonPrefixExtend(x: seq<int>, y: seq<int>, h: nat)
    requires h <= CommonPrefix(x, y)
    ensures h < CommonPrefix(x, y) <==> h < |x| && h < |y| && x[h] == y[h]
  {
    CommonPrefixFacts(x, y);
    var c := CommonPrefix(x, y);
    if h < c {
      assert x[h] == x[..c][h] && y[h] == y[..c][h];
    }
  }

  /** Dropping a shared first code point shortens the common prefix by one and keeps the order. */
  lemma {:induction false} KasaiNext(text: seq<int>, j: int, i: int)
    requires 0 <= j < |text| && 0 <= i < |text|
    requires LexLess(text[j..], text[i..]) && CommonPrefix(text[j..], text[i..]) > 0
    ensures LexLess(text[j + 1..], text[i + 1..])
    ensures CommonPrefix(text[j + 1..], text[i + 1..]) == CommonPrefix(text[j..], text[i..]) - 1
  {
    assert text[j..][1..] == text[j + 1..] && text[i..][1..] == text[i + 1..];
    assert text[j] == text[i];
    LexTail(text, j, i);
  }

  /** A rank loop that meets no out-of-range slot of a permutation inverts it. */
  lemma {:induction false} RankInverse(sa: seq<int>, rank: seq<int>)
    requires IsPermutation(sa, |sa|) && |rank| == |sa|
    requires forall k :: 0 <= k < |sa| ==> rank[sa[k]] == k
    ensures Inverse(sa, rank)
  {
    forall p | 0 <= p < |rank| ensures 0 <= rank[p] < |sa| && sa[rank[p]] == p {
      var r := PermutationInverse(sa, |sa|, p);
    }
  }

  /**
   * Any suffix smaller than suffix `i` is no larger than the one ranked
   * just before it, so it shares no longer a prefix with suffix `i`.
   */
  lemma {:induction false} KasaiPred(text: seq<int>, sa: seq<int>, rank: seq<int>, i: int, q: int)
    requires IsSuffixArray(text, sa) && Inverse(sa, rank)
    requires 0 <= i < |text| && rank[i] > 0 && 0 <= q <= |text|
    requires LexLess(text[q..], text[i..])
    ensures LexLess(text[sa[rank[i] - 1]..], text[i..])
    ensures CommonPrefix(text[q..], text[i..]) <= CommonPrefix(text[sa[rank[i] - 1]..], text[i..])
  {
    var ri := rank[i];
    var j := sa[ri - 1];
    assert LexLess(text[j..], text[sa[ri]..]);
    if q == |text| {
      assert text[q..] == [];
    } else {
      var rq := rank[q];
      if rq == ri {
        LexIrreflexive(text[i..]);
      } else if rq > ri {
        SuffixArraySorted(text, sa, ri, rq);
        LexAsymmetric(text[i..], text[q..]);
      } else {
        if rq < ri - 1 {
          SuffixArraySorted(text, sa, rq, ri - 1);
        }
        CommonPrefixSandwich(text[q..], text[j..], text[i..]);
      }
    }
  }

  /** Nothing but the empty suffix is smaller than the suffix of rank 0. */
  lemma {:induction false} KasaiFirst(text: seq<int>, sa: seq<int>, rank: seq<int>, i: int, q: int)
    requires IsSuffixArray(text, sa) && Inverse(sa, rank)
    requires 0 <= i < |text| && rank[i] == 0 && 0 <= q <= |text|
    requires LexLess(text[q..], text[i..])
    ensures q == |text| && CommonPrefix(text[q..], text[i..]) == 0
    ensures forall r :: 0 < r < |text| ==> sa[r] != i
  {
    if q < |text| {
      var rq := rank[q];
      if rq == 0 {
        LexIrreflexive(text[i..]);
      } else {
        SuffixArraySorted(text, sa, 0, rq);
        LexAsymmetric(text[i..], text[q..]);
      }
    }
    assert text[q..] == [];
  }

  /** Storing the common prefix of suffix `i` and its predecessor extends the filled part of the LCP array. */
  lemma {:induction false} KasaiStore(text: seq<int>, sa: seq<int>, rank: seq<int>, before: seq<int>, i: int, h: int)
    requires IsSuffixArray(text, sa) && Inverse(sa, rank) && |before| == |text|
    requires 0 <= i < |text| && rank[i] > 0
    requires h == CommonPrefix(text[sa[rank[i] - 1]..], text[i..])
    requires forall r :: 0 < r < |text| && sa[r] < i ==> before[r] == CommonPrefix(text[sa[r - 1]..], text[sa[r]..])
    ensures var after := before[rank[i] := h];
      forall r :: 0 < r < |text| && sa[r] < i + 1 ==> after[r] == CommonPrefix(text[sa[r - 1]..], text[sa[r]..])
  {
    var after := before[rank[i] := h];
    forall r | 0 < r < |text| && sa[r] < i + 1
      ensures after[r] == CommonPrefix(text[sa[r - 1]..], text[sa[r]..])
    {
      if r != rank[i] {
        assert sa[r] != sa[rank[i]];
      }
    }
  }

  /**
   * The rank loop of `computeLCP`: `rank[sa[i]] := i` for each slot in
   * turn, starting from a zero-filled vector.  `fault` reports the first
   * slot outside 0 .. n-1, which the source would use as an index.
   */
  method RankOf(sa: seq<int>) returns (rank: seq<int>, fault: bool)
    ensures fault <==> exists k :: 0 <= k < |sa| && !(0 <= sa[k] < |sa|)
    ensures !fault ==> |rank| == |sa| && forall p :: 0 <= p < |sa| ==> 0 <= rank[p] < |sa|
    ensures !fault && IsPermutation(sa, |sa|) ==> Inverse(sa, rank)
  {
    var n := |sa|;
    var a := new int[n](_ => 0);
    var i := 0;
    while i < n
      invariant 0 <= i <= n && a.Length == n
      invariant forall k :: 0 <= k < i ==> 0 <= sa[k] < n
      invariant forall p :: 0 <= p < n ==> 0 <= a[p] < n
      invariant Distinct(sa) ==> forall k :: 0 <= k < i ==> a[sa[k]] == k
    {
      if !(0 <= sa[i] < n) {
        return [], true;
      }
      a[sa[i]] := i;
      i := i + 1;
    }
    rank, fault := a[..], false;
    if IsPermutation(sa, n) {
      RankInverse(sa, rank);
    }
  }

  /**
   * The inner loop of `computeLCP`: extend the matched length `h` while
   * the suffixes at `i` and `j` agree.  Started at no more than their
   * common prefix, it stops exactly there.
   */
  method MatchLength(text: seq<int>, j: int, i: int, h0: int) returns (h: int)
    requires 0 <= j < |text| && 0 <= i < |text| && 0 <= h0 <= |text|
    ensures h0 <= h <= |text|
    ensures h0 <= CommonPrefix(text[j..], text[i..]) ==> h == CommonPrefix(text[j..], text[i..])
  {
    h := h0;
    ghost var below := h0 <= CommonPrefix(text[j..], text[i..]);
    while i + h < |text| && j + h < |text| && text[i + h] == text[j + h]
      invariant h0 <= h <= |text|
      invariant below ==> h <= CommonPrefix(text[j..], text[i..])
    {
      if below {
        CommonPrefixExtend(text[j..], text[i..], h);
      }
      h := h + 1;
    }
    if below {
      CommonPrefixExtend(text[j..], text[i..], h);
    }
  }

  /**
   * The state of Kasai's scan before offset `i`: `h` is no longer than the
   * common prefix of suffix `i` with a smaller suffix `q` (the empty one
   * when `q == n`), and every LCP slot whose suffix starts before `i` is
   * filled in.
   */
  ghost predicate KasaiInv(text: seq<int>, sa: seq<int>, i: int, h: int, q: int, out: seq<int>)
    requires IsSuffixArray(text, sa)
  {
    var n := |text|;
    |out| == n && 0 <= i <= n && 0 <= q <= n &&
    (i < n ==> LexLess(text[q..], text[i..])) && h <= CommonPrefix(text[q..], text[i..]) &&
    forall r :: 0 < r < n && sa[r] < i ==> out[r] == CommonPrefix(text[sa[r - 1]..], text[sa[r]..])
  }

  /** Kasai's scan starts in its invariant. */
  lemma {:induction false} KasaiStart(text: seq<int>, sa: seq<int>, out: seq<int>)
    requires IsSuffixArray(text, sa) && |out| == |text|
    ensures KasaiInv(text, sa, 0, 0, |text|, out)
  {
    assert text[|text|..] == [];
    forall r | 0 < r < |text| ensures sa[r] >= 0 {
    }
  }

  /** Offset `i` of rank r > 0: storing its exact common prefix `h2` keeps the invariant for `i + 1`. */
  lemma {:induction false} KasaiAdvance(text: seq<int>, sa: seq<int>, rank: seq<int>, i: int, h: int, q: int,
                                        out: seq<int>, h2: int, nh: int, nq: int, after: seq<int>)
    requires IsSuffixArray(text, sa) && Inverse(sa, rank) && KasaiInv(text, sa, i, h, q, out)
    requires i < |text| && rank[i] > 0
    requires h2 == CommonPrefix(text[sa[rank[i] - 1]..], text[i..])
    requires after == out[rank[i] := h2]
    requires nh == (if h2 > 0 then h2 - 1 else 0)
    requires nq == (if h2 > 0 then sa[rank[i] - 1] + 1 else |text|)
    ensures KasaiInv(text, sa, i + 1, nh, nq, after)
  {
    var j := sa[rank[i] - 1];
    KasaiPred(text, sa, rank, i, q);
    KasaiStore(text, sa, rank, out, i, h2);
    if h2 > 0 {
      KasaiNext(text, j, i);
    } else {
      assert text[|text|..] == [];
    }
  }

  /** Offset `i` of rank 0: `h` is 0 and nothing is stored. */
  lemma {:induction false} KasaiSkip(text: seq<int>, sa: seq<int>, rank: seq<int>,
                                     i: int, h: int, q: int, out: seq<int>)
    requires IsSuffixArray(text, sa) && Inverse(sa, rank) && KasaiInv(text, sa, i, h, q, out)
    requires i < |text| && rank[i] == 0
    ensures h <= 0 && KasaiInv(text, sa, i + 1, h, |text|, out)
  {
    KasaiFirst(text, sa, rank, i, q);
    assert text[|text|..] == [];
  }

  /** At the end of the scan every LCP slot is filled in. */
  lemma {:induction false} KasaiEnd(text: seq<int>, sa: seq<int>, h: int, q: int, out: seq<int>)
    requires IsSuffixArray(text, sa) && KasaiInv(text, sa, |text|, h, q, out)
    requires |text| > 0 ==> out[0] == 0
    ensures LcpOf(text, sa, out)
  {
  }

  /**
   * The main loop of `computeLCP` (Kasai et al.): offsets in text order,
   * `h` dropping by at most one from each suffix to the next.  For a
   * suffix array and its inverse the result is the LCP array.
   */
  method KasaiScan(text: seq<int>, sa: seq<int>, rank: seq<int>) returns (lcp: seq<int>)
    requires |sa| == |text| && |rank| == |text|
    requires forall k :: 0 <= k < |sa| ==> 0 <= sa[k] < |sa|
    requires forall p :: 0 <= p < |rank| ==> 0 <= rank[p] < |sa|
    ensures |lcp| == |text| && (|text| > 0 ==> lcp[0] == 0)
    ensures forall r :: 0 <= r < |lcp| ==> 0 <= lcp[r] <= |text|
    ensures IsSuffixArray(text, sa) && Inverse(sa, rank) ==> LcpOf(text, sa, lcp)
  {
    var n := |text|;
    ghost var sorted := IsSuffixArray(text, sa) && Inverse(sa, rank);
    var out := seq(n, _ => 0);
    var h := 0;
    ghost var q := n;
    if sorted {
      KasaiStart(text, sa, out);
    }
    var i := 0;
    while i < n
      invariant 0 <= i <= n && 0 <= h <= n && |out| == n
      invariant n > 0 ==> out[0] == 0
      invariant forall r :: 0 <= r < n ==> 0 <= out[r] <= n
      invariant sorted ==> KasaiInv(text, sa, i, h, q, out)
    {
      if rank[i] > 0 {
        var j := sa[rank[i] - 1];
        if sorted {
          KasaiPred(text, sa, rank, i, q);
        }
        ghost var h0 := h;
        h := MatchLength(text, j, i, h);
        ghost var before := out;
        ghost var h2 := h;
        out := out[rank[i] := h];
        ghost var q0 := q;
        if h > 0 {
          q := j + 1;
          h := h - 1;
        } else {
          q := n;
        }
        if sorted {
          KasaiAdvance(text, sa, rank, i, h0, q0, before, h2, h, q, out);
        }
      } else {
        if sorted {
          KasaiSkip(text, sa, rank, i, h, q, out);
        }
        q := n;
      }
      i := i + 1;
    }
    lcp := out;
    if sorted {
      KasaiEnd(text, sa, h, q, lcp);
    }
  }

  /**
   * `computeLCP`: ranks, then Kasai's scan.  `fault` reports a slot of
   * `sa` outside 0 .. n-1; for a true suffix array there is none and the
   * result is its LCP array.
   */
  method ComputeLcp(text: seq<int>, sa: seq<int>) returns (lcp: seq<int>, fault: bool)
    requires |sa| == |text|
    ensures fault <==> exists k :: 0 <= k < |sa| && !(0 <= sa[k] < |sa|)
    ensures !fault ==> |lcp| == |text| && (|text| > 0 ==> lcp[0] == 0)
    ensures !fault ==> forall r :: 0 <= r < |lcp| ==> 0 <= lcp[r] <= |text|
    ensures IsSuffixArray(text, sa) ==> !fault && LcpOf(text, sa, lcp)
  {
    var rank;
    rank, fault := RankOf(sa);
    if fault {
      return [], true;
    }
    lcp := KasaiScan(text, sa, rank);
  }

  // ---------------------------------------------------------------------
  // A corrected builder: a comparison sort of the suffixes.
  // ---------------------------------------------------------------------

  /** `sa` holds 0 .. p-1 once each, adjacent slots in increasing suffix order. */
  predicate SortedPrefix(text: seq<int>, sa: seq<int>, p: int) {
    0 <= p <= |text| && IsPermutation(sa, p) &&
    forall r :: 0 < r < p ==> LexLess(text[sa[r - 1]..], text[sa[r]..])
  }

  /** Inserting the new offset `p` anywhere keeps a permutation of 0 .. p. */
  lemma {:induction false} InsertOffset(sa: seq<int>, p: nat, k: int)
    requires IsPermutation(sa, p) && 0 <= k <= p
    ensures IsPermutation(sa[..k] + [p] + sa[k..], p + 1)
  {
    var t := sa[..k] + [p] + sa[k..];
    assert forall r :: 0 <= r < k ==> t[r] == sa[r];
    assert forall r :: k < r <= p ==> t[r] == sa[r - 1];
    forall a, b | 0 <= a < b < p + 1 ensures t[a] != t[b] {
      if a < k && b > k {
        assert sa[a] != sa[b - 1];
      }
    }
  }

  /** Inserting suffix `p` between its neighbours keeps the order. */
  lemma {:induction false} InsertSuffix(text: seq<int>, sa: seq<int>, p: int, k: int)
    requires SortedPrefix(text, sa, p) && p < |text| && 0 <= k <= p
    requires k > 0 ==> LexLess(text[sa[k - 1]..], text[p..])
    requires k < p ==> LexLess(text[p..], text[sa[k]..])
    ensures SortedPrefix(text, sa[..k] + [p] + sa[k..], p + 1)
  {
    InsertOffset(sa, p, k);
    var t := sa[..k] + [p] + sa[k..];
    forall r | 0 < r < p + 1 ensures LexLess(text[t[r - 1]..], text[t[r]..]) {
      if r < k {
        assert t[r - 1] == sa[r - 1] && t[r] == sa[r];
      } else if r > k + 1 {
        assert t[r - 1] == sa[r - 2] && t[r] == sa[r - 1];
      } else if r == k {
        assert t[r - 1] == sa[k - 1] && t[r] == p;
      } else {
        assert t[r - 1] == p && t[r] == sa[k];
      }
    }
  }

  /**
   * Sorts the suffixes of `text` by insertion, with a linear search for
   * each new offset: the suffix array that `buildSAIS` is meant to return.
   */
  method SortSuffixes(text: seq<int>) returns (sa: seq<int>)
    ensures IsSuffixArray(text, sa)
  {
    sa := [];
    var p := 0;
    while p < |text|
      invariant SortedPrefix(text, sa, p)
    {
      var k := 0;
      while k < p && LexLess(text[sa[k]..], text[p..])
        invariant 0 <= k <= p
        invariant k > 0 ==> LexLess(text[sa[k - 1]..], text[p..])
      {
        k := k + 1;
      }
      if k < p {
        DistinctSuffixes(text, sa[k], p);
        LexTotal(text[sa[k]..], text[p..]);
      }
      InsertSuffix(text, sa, p, k);
      sa := sa[..k] + [p] + sa[k..];
      p := p + 1;
    }
  }

  // ---------------------------------------------------------------------
  // The `SuffixArray` object.
  // ---------------------------------------------------------------------

  /**
   * A suffix array and LCP array over a text of code points.  `fault`
   * records that construction reached an out-of-range index, where the
   * source's behaviour is undefined; `sa` and `lcp` then mean nothing.
   */
  class SuffixArray {
    const text: seq<int>
    var sa: seq<int>
    var lcp: seq<int>
    var fault: bool

    /**
     * The constructor as written: alphabet size from the largest code
     * point, `buildSAIS`, then `computeLCP`.  A text of two or more code
     * points that never falls has no LMS position, so `buildSAIS` leaves
     * every slot at -1 and the rank loop of `computeLCP` faults.
     */
    constructor (text: seq<int>)
      requires forall i :: 0 <= i < |text| ==> text[i] >= 0
      ensures this.text == text
      ensures |text| == 0 ==> sa == [] && lcp == [] && !fault
      ensures |text| == 1 ==> sa == [0] && lcp == [0] && !fault
      ensures |text| >= 2 && NonDecreasing(text) ==> fault
      ensures !fault ==> |sa| == |text| && |lcp| == |text| && forall k :: 0 <= k < |sa| ==> 0 <= sa[k] < |text|
      ensures !fault && |text| > 0 ==> lcp[0] == 0
      ensures !fault ==> forall r :: 0 <= r < |lcp| ==> 0 <= lcp[r] <= |text|
      ensures !fault && IsSuffixArray(text, sa) ==> LcpOf(text, sa, lcp)
    {
      this.text := text;
      var order: seq<int>, heights: seq<int>, bad := [], [], false;
      if |text| > 0 {
        var m := MaxChar(text);
        var a := new int[|text|](_ => 0);
        bad := BuildSais(text, a, m + 1);
        order := a[..];
        if !bad {
          heights, bad := ComputeLcp(text, order);
          if |text| == 1 {
            assert heights == [0];
          } else if NonDecreasing(text) {
            assert order[0] == -1;
          }
        }
      }
      sa, lcp, fault := order, heights, bad;
    }

    /**
     * The constructor with `buildSAIS` replaced by a comparison sort of
     * the suffixes: a true suffix array for every text, and its LCP array.
     */
    constructor Corrected(text: seq<int>)
      ensures this.text == text && !fault
      ensures IsSuffixArray(text, sa) && LcpOf(text, sa, lcp)
      ensures |lcp| == |text| && (|text| > 0 ==> lcp[0] == 0)
      ensures forall r :: 0 <= r < |lcp| ==> 0 <= lcp[r] <= |text|
    {
      this.text := text;
      var order := SortSuffixes(text);
      var heights, bad := ComputeLcp(text, order);
      sa, lcp, fault := order, heights, bad;
    }
  }
}
