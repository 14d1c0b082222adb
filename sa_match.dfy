/**
 * Binary-search pattern matching over a suffix array (include/sa_match.hpp,
 * class SAMatcher).  The matcher only reads the text and the suffix array;
 * here both are passed to each operation.  A pattern is given as a buffer and
 * a length, as in the pointer-and-length interface; the string overloads pass
 * a whole sequence.
 */
module SaMatch {
  import opened Sorting
  import opened Suffixes

  /**
   * The suffix that `comparePattern` reads at `pos`.  An index converted to
   * `size_t` that is negative or past the end reads no character at all.
   */
  function SuffixAt(text: seq<int>, pos: int): seq<int> {
    if 0 <= pos <= |text| then text[pos..] else []
  }

  /**
   * `comparePattern` as a value: 0 when `p` is a prefix of `x`, 1 when `x`
   * ends first or `p` is larger at the first difference, -1 otherwise.
   */
  function PatternCompare(p: seq<int>, x: seq<int>): (c: int)
    ensures -1 <= c <= 1
    decreases |p|
  {
    if p == [] then 0
    else if x == [] then 1
    else if p[0] < x[0] then -1
    else if p[0] > x[0] then 1
    else PatternCompare(p[1..], x[1..])
  }

  /** The comparison in terms of the first position where `p` and `x` part. */
  lemma {:induction false} PatternCompareFirstDifference(p: seq<int>, x: seq<int>)
    ensures var k := CommonPrefix(p, x);
      PatternCompare(p, x) ==
        if k == |p| then 0
        else if k == |x| then 1
        else if p[k] < x[k] then -1
        else 1
    decreases |p|
  {
    if p != [] && x != [] && p[0] == x[0] {
      PatternCompareFirstDifference(p[1..], x[1..]);
    }
  }

  /** The comparison is 0 exactly when the pattern is a prefix of the suffix. */
  lemma {:induction false} PatternCompareZero(p: seq<int>, x: seq<int>)
    ensures PatternCompare(p, x) == 0 <==> |p| <= |x| && x[..|p|] == p
    decreases |p|
  {
    if p != [] && x != [] {
      PatternCompareZero(p[1..], x[1..]);
      assert p == [p[0]] + p[1..];
      if |p| <= |x| {
        assert x[..|p|] == [x[0]] + x[1..][..|p| - 1];
      }
    }
  }

  /** A larger suffix never compares lower against the same pattern. */
  lemma {:induction false} PatternCompareMonotone(p: seq<int>, x: seq<int>, y: seq<int>)
    requires LexLess(x, y)
    ensures PatternCompare(p, x) >= PatternCompare(p, y)
    decreases |p|
  {
    if p != [] && x != [] && y != [] && x[0] == y[0] && p[0] == x[0] {
      PatternCompareMonotone(p[1..], x[1..], y[1..]);
    }
  }

  /** Along `sa`, the comparison with `p` never increases. */
  predicate CompareSorted(text: seq<int>, sa: seq<int>, p: seq<int>) {
    forall i, j :: 0 <= i < j < |sa| ==>
      PatternCompare(p, SuffixAt(text, sa[i])) >= PatternCompare(p, SuffixAt(text, sa[j]))
  }

  lemma {:induction false} SuffixArrayCompareSorted(text: seq<int>, sa: seq<int>, p: seq<int>)
    requires IsSuffixArray(text, sa)
    ensures CompareSorted(text, sa, p)
  {
    forall i, j | 0 <= i < j < |sa|
      ensures PatternCompare(p, SuffixAt(text, sa[i])) >= PatternCompare(p, SuffixAt(text, sa[j]))
    {
      SuffixArraySorted(text, sa, i, j);
      PatternCompareMonotone(p, text[sa[i]..], text[sa[j]..]);
    }
  }

  /** The offsets at which `p` occurs in `text`. */
  function Occurrences(text: seq<int>, p: seq<int>): set<int> {
    set q | 0 <= q < |text| && OccursAt(text, p, q)
  }

  /** `comparePattern`: compare `pattern[..patternLen]` with the suffix at `suffixIdx`. */
  method ComparePattern(text: seq<int>, pattern: seq<int>, patternLen: nat, suffixIdx: int)
    returns (c: int)
    requires patternLen <= |pattern|
    ensures c == PatternCompare(pattern[..patternLen], SuffixAt(text, suffixIdx))
  {
    var x := SuffixAt(text, suffixIdx);
    var p := pattern[..patternLen];
    var i := 0;
    while i < patternLen
      invariant 0 <= i <= patternLen
      invariant i <= |x| && x[..i] == p[..i]
      invariant PatternCompare(p, x) == PatternCompare(p[i..], x[i..])
    {
      assert p[i..][1..] == p[i + 1..] && x[i..] != [] ==> x[i..][1..] == x[i + 1..];
      if !(0 <= suffixIdx && suffixIdx + i < |text|) {
        return 1;  // the suffix ends before the pattern
      }
      assert text[suffixIdx + i] == x[i];
      if pattern[i] < text[suffixIdx + i] {
        return -1;
      } else if pattern[i] > text[suffixIdx + i] {
        return 1;
      }
      assert x[..i + 1] == x[..i] + [x[i]] && p[..i + 1] == p[..i] + [p[i]];
      i := i + 1;
    }
    return 0;
  }

  /** The comparison of the pattern with the suffix at each slot of `sa`. */
  function Comparisons(text: seq<int>, sa: seq<int>, p: seq<int>): (cs: seq<int>)
    ensures |cs| == |sa|
    decreases |sa|
  {
    if sa == [] then []
    else Comparisons(text, sa[..|sa| - 1], p) + [PatternCompare(p, SuffixAt(text, sa[|sa| - 1]))]
  }

  /** Entry `i` of `Comparisons` compares the pattern with the suffix at slot `i`. */
  lemma {:induction false} ComparisonAt(text: seq<int>, sa: seq<int>, p: seq<int>, i: int)
    requires 0 <= i < |sa|
    ensures Comparisons(text, sa, p)[i] == PatternCompare(p, SuffixAt(text, sa[i]))
    decreases |sa|
  {
    if i < |sa| - 1 {
      ComparisonAt(text, sa[..|sa| - 1], p, i);
    }
  }

  /**
   * The bisection of `findLeft` and `findRight` as a value: halve
   * `[left, right)`, moving right past the middle slot when its comparison
   * is at least `t`, and stop when the range is empty.  `findLeft` moves on
   * a comparison `> 0` (`t == 1`), `findRight` on one `>= 0` (`t == 0`).
   */
  function Search(cs: seq<int>, t: int, left: int, right: int): (r: int)
    requires 0 <= left <= right <= |cs|
    ensures left <= r <= right
    decreases right - left
  {
    if left == right then left
    else
      var mid := left + (right - left) / 2;
      if cs[mid] >= t then Search(cs, t, mid + 1, right) else Search(cs, t, left, mid)
  }

  /** One halving of `Search` at the midpoint. */
  lemma {:induction false} SearchStep(cs: seq<int>, t: int, left: int, right: int, mid: int)
    requires 0 <= left < right <= |cs| && mid == left + (right - left) / 2
    ensures left <= mid < right
    ensures Search(cs, t, left, right) ==
      if cs[mid] >= t then Search(cs, t, mid + 1, right) else Search(cs, t, left, mid)
  {
  }

  /** Slots before `b` compare at least `t`, and the rest below `t`. */
  predicate SplitAt(cs: seq<int>, t: int, b: int) {
    0 <= b <= |cs| &&
    (forall i :: 0 <= i < b ==> cs[i] >= t) &&
    (forall i :: b <= i < |cs| ==> cs[i] < t)
  }

  /** When the comparisons split at `b` inside `[left, right]`, the bisection finds `b`. */
  lemma {:induction false} SearchFindsSplit(cs: seq<int>, t: int, left: int, right: int, b: int)
    requires 0 <= left <= b <= right <= |cs| && SplitAt(cs, t, b)
    ensures Search(cs, t, left, right) == b
    decreases right - left
  {
    if left < right {
      var mid := left + (right - left) / 2;
      SearchStep(cs, t, left, right, mid);
      if cs[mid] >= t {
        SearchFindsSplit(cs, t, mid + 1, right, b);
      } else {
        SearchFindsSplit(cs, t, left, mid, b);
      }
    }
  }

  /** The comparisons never increase from one slot to a later one. */
  predicate NonIncreasing(cs: seq<int>) {
    forall i, j :: 0 <= i < j < |cs| ==> cs[i] >= cs[j]
  }

  /** The first slot from `i` on whose comparison is below `t`, or `|cs|`. */
  function FirstBelow(cs: seq<int>, t: int, i: int): (b: int)
    requires 0 <= i <= |cs|
    ensures i <= b <= |cs|
    decreases |cs| - i
  {
    if i == |cs| then i
    else if cs[i] < t then i
    else FirstBelow(cs, t, i + 1)
  }

  /** Non-increasing comparisons split at the first one below `t`. */
  lemma {:induction false} FirstBelowSplits(cs: seq<int>, t: int, i: int)
    requires 0 <= i <= |cs| && NonIncreasing(cs)
    requires forall j :: 0 <= j < i ==> cs[j] >= t
    ensures SplitAt(cs, t, FirstBelow(cs, t, i))
    decreases |cs| - i
  {
    if i < |cs| {
      if cs[i] < t {
        forall j | i <= j < |cs| ensures cs[j] < t {
          if i < j {
            assert cs[i] >= cs[j];
          }
        }
      } else {
        FirstBelowSplits(cs, t, i + 1);
      }
    }
  }

  /** The slot `findLeft` returns for pattern `p`, over any array. */
  function LeftBound(text: seq<int>, sa: seq<int>, p: seq<int>): int {
    Search(Comparisons(text, sa, p), 1, 0, |sa|)
  }

  /** The slot `findRight` returns for pattern `p`, over any array. */
  function RightBound(text: seq<int>, sa: seq<int>, p: seq<int>): int {
    Search(Comparisons(text, sa, p), 0, 0, |sa|)
  }

  lemma {:induction false} ComparisonsSorted(text: seq<int>, sa: seq<int>, p: seq<int>)
    requires CompareSorted(text, sa, p)
    ensures NonIncreasing(Comparisons(text, sa, p))
  {
    var cs := Comparisons(text, sa, p);
    forall i, j | 0 <= i < j < |cs| ensures cs[i] >= cs[j] {
      ComparisonAt(text, sa, p, i);
      ComparisonAt(text, sa, p, j);
    }
  }

  /**
   * When the comparisons along `sa` are sorted, they split at the bisection's
   * result: slots before it compare at least `t`, the rest below `t`.
   */
  lemma {:induction false} SearchSorted(text: seq<int>, sa: seq<int>, p: seq<int>, t: int)
    requires CompareSorted(text, sa, p)
    ensures var r := Search(Comparisons(text, sa, p), t, 0, |sa|);
      (forall i :: 0 <= i < r ==> PatternCompare(p, SuffixAt(text, sa[i])) >= t) &&
      (forall i :: r <= i < |sa| ==> PatternCompare(p, SuffixAt(text, sa[i])) < t)
  {
    var cs := Comparisons(text, sa, p);
    ComparisonsSorted(text, sa, p);
    FirstBelowSplits(cs, t, 0);
    var b := FirstBelow(cs, t, 0);
    SearchFindsSplit(cs, t, 0, |sa|, b);
    forall i | 0 <= i < b ensures PatternCompare(p, SuffixAt(text, sa[i])) >= t {
      ComparisonAt(text, sa, p, i);
    }
    forall i | b <= i < |sa| ensures PatternCompare(p, SuffixAt(text, sa[i])) < t {
      ComparisonAt(text, sa, p, i);
    }
  }

  /** `comparePattern(pattern, patternLen, sa[mid])`, as entry `mid` of `Comparisons`. */
  method CompareSlot(text: seq<int>, sa: seq<int>, pattern: seq<int>, patternLen: nat, mid: int)
    returns (c: int)
    requires patternLen <= |pattern| && 0 <= mid < |sa|
    ensures c == Comparisons(text, sa, pattern[..patternLen])[mid]
  {
    c := ComparePattern(text, pattern, patternLen, sa[mid]);
    ComparisonAt(text, sa, pattern[..patternLen], mid);
  }

  /**
   * One step of the bisection in `findLeft` (`t == 1`, keep going right while
   * the comparison is `> 0`) and `findRight` (`t == 0`, while it is `>= 0`):
   * the range shrinks and the bisection's result is unchanged.
   */
  method Narrow(text: seq<int>, sa: seq<int>, pattern: seq<int>, patternLen: nat, t: int,
                left: int, right: int)
    returns (nextLeft: int, nextRight: int)
    requires patternLen <= |pattern| && 0 <= left < right <= |sa|
    ensures left <= nextLeft <= nextRight <= right && nextRight - nextLeft < right - left
    ensures Search(Comparisons(text, sa, pattern[..patternLen]), t, nextLeft, nextRight)
         == Search(Comparisons(text, sa, pattern[..patternLen]), t, left, right)
  {
    var mid := left + (right - left) / 2;
    SearchStep(Comparisons(text, sa, pattern[..patternLen]), t, left, right, mid);
    var c := CompareSlot(text, sa, pattern, patternLen, mid);
    if c >= t {
      nextLeft, nextRight := mid + 1, right;
    } else {
      nextLeft, nextRight := left, mid;
    }
  }

  /** `findLeft`: the first slot whose suffix does not compare below the pattern. */
  method FindLeft(text: seq<int>, sa: seq<int>, pattern: seq<int>, patternLen: nat)
    returns (left: int)
    requires patternLen <= |pattern|
    ensures left == LeftBound(text, sa, pattern[..patternLen])
    ensures 0 <= left <= |sa|
    ensures CompareSorted(text, sa, pattern[..patternLen]) ==>
      (forall i :: 0 <= i < left ==> PatternCompare(pattern[..patternLen], SuffixAt(text, sa[i])) > 0) &&
      (forall i :: left <= i < |sa| ==> PatternCompare(pattern[..patternLen], SuffixAt(text, sa[i])) <= 0)
  {
    ghost var p := pattern[..patternLen];
    ghost var cs := Comparisons(text, sa, p);
    left := 0;
    var right := |sa|;
    while left < right
      invariant 0 <= left <= right <= |sa|
      invariant Search(cs, 1, left, right) == Search(cs, 1, 0, |sa|)
    {
      left, right := Narrow(text, sa, pattern, patternLen, 1, left, right);
    }
    if CompareSorted(text, sa, p) {
      SearchSorted(text, sa, p, 1);
    }
  }

  /** `findRight`: the first slot whose suffix compares above the pattern. */
  method FindRight(text: seq<int>, sa: seq<int>, pattern: seq<int>, patternLen: nat)
    returns (right: int)
    requires patternLen <= |pattern|
    ensures right == RightBound(text, sa, pattern[..patternLen])
    ensures 0 <= right <= |sa|
    ensures CompareSorted(text, sa, pattern[..patternLen]) ==>
      (forall i :: 0 <= i < right ==> PatternCompare(pattern[..patternLen], SuffixAt(text, sa[i])) >= 0) &&
      (forall i :: right <= i < |sa| ==> PatternCompare(pattern[..patternLen], SuffixAt(text, sa[i])) < 0)
  {
    ghost var p := pattern[..patternLen];
    ghost var cs := Comparisons(text, sa, p);
    var left := 0;
    right := |sa|;
    while left < right
      invariant 0 <= left <= right <= |sa|
      invariant Search(cs, 0, left, right) == Search(cs, 0, 0, |sa|)
    {
      left, right := Narrow(text, sa, pattern, patternLen, 0, left, right);
    }
    assert left == RightBound(text, sa, p);
    right := left;
    if CompareSorted(text, sa, p) {
      SearchSorted(text, sa, p, 0);
    }
  }

  /** At a valid offset, the comparison is 0 exactly at an occurrence. */
  lemma {:induction false} ZeroIffOccurs(text: seq<int>, p: seq<int>, q: int)
    requires 0 <= q <= |text|
    ensures PatternCompare(p, SuffixAt(text, q)) == 0 <==> OccursAt(text, p, q)
  {
    PatternCompareZero(p, text[q..]);
    if q + |p| <= |text| {
      assert text[q..][..|p|] == text[q..q + |p|];
    }
  }

  /**
   * Over a suffix array, the slots between the two bounds hold exactly the
   * occurrences of the pattern.
   */
  lemma {:induction false} BoundsAreOccurrences(text: seq<int>, sa: seq<int>, p: seq<int>, left: int, right: int)
    requires IsSuffixArray(text, sa)
    requires 0 <= left <= |sa| && 0 <= right <= |sa|
    requires forall i :: 0 <= i < left ==> PatternCompare(p, SuffixAt(text, sa[i])) > 0
    requires forall i :: left <= i < |sa| ==> PatternCompare(p, SuffixAt(text, sa[i])) <= 0
    requires forall i :: 0 <= i < right ==> PatternCompare(p, SuffixAt(text, sa[i])) >= 0
    requires forall i :: right <= i < |sa| ==> PatternCompare(p, SuffixAt(text, sa[i])) < 0
    ensures left <= right
    ensures forall q :: q in sa[left..right] <==> q in Occurrences(text, p)
    ensures Distinct(sa[left..right])
  {
    if left > 0 {
      assert PatternCompare(p, SuffixAt(text, sa[left - 1])) > 0;
      assert left - 1 < right;
    }
    SliceDistinct(sa, |text|, left, right);
    forall q | q in sa[left..right] ensures q in Occurrences(text, p) {
      var k :| 0 <= k < right - left && sa[left..right][k] == q;
      assert sa[left + k] == q;
      ZeroIffOccurs(text, p, q);
    }
    forall q | q in Occurrences(text, p) ensures q in sa[left..right] {
      var i := PermutationInverse(sa, |text|, q);
      ZeroIffOccurs(text, p, q);
      assert sa[left..right][i - left] == q;
    }
  }

  /** `findAll`: the occurrence offsets of the pattern, in ascending order. */
  method FindAll(text: seq<int>, sa: seq<int>, pattern: seq<int>, patternLen: nat)
    returns (result: seq<int>)
    requires patternLen <= |pattern|
    ensures patternLen == 0 || |text| == 0 ==> result == []
    ensures patternLen > 0 && |text| > 0 ==>
      var l, r := LeftBound(text, sa, pattern[..patternLen]), RightBound(text, sa, pattern[..patternLen]);
      result == Sort(if l < r then sa[l..r] else [])
    ensures NonDecreasing(result)
    ensures forall q :: q in result ==> q in sa
    ensures patternLen > 0 && IsSuffixArray(text, sa) ==>
      Increasing(result) &&
      (forall q :: q in result <==> q in Occurrences(text, pattern[..patternLen])) &&
      |result| == |Occurrences(text, pattern[..patternLen])|
  {
    if patternLen == 0 || |text| == 0 {
      return [];
    }
    var left := FindLeft(text, sa, pattern, patternLen);
    var right := FindRight(text, sa, pattern, patternLen);
    var slots := CopySlots(sa, left, right);
    // Sort positions in ascending order.
    result := Sort(slots);
    SortMembers(slots);
    if IsSuffixArray(text, sa) {
      ghost var p := pattern[..patternLen];
      SortedBoundsAreOccurrences(text, sa, p, left, right);
      assert slots == sa[left..right];
    }
  }

  /** The loop of `findAll`: the entries of slots `left` .. `right - 1`, in slot order. */
  method CopySlots(sa: seq<int>, left: int, right: int) returns (slots: seq<int>)
    requires 0 <= left <= |sa| && 0 <= right <= |sa|
    ensures slots == if left < right then sa[left..right] else []
  {
    slots := [];
    var i := left;
    while i < right
      invariant left <= i && (i <= right || i == left)
      invariant slots == sa[left..i]
    {
      slots := slots + [sa[i]];
      i := i + 1;
    }
  }

  /**
   * Over a suffix array, the slots the two searches bound, sorted, are the
   * occurrences in ascending order, each once.
   */
  lemma {:induction false} SortedBoundsAreOccurrences(text: seq<int>, sa: seq<int>, p: seq<int>, left: int, right: int)
    requires IsSuffixArray(text, sa)
    requires 0 <= left <= |sa| && 0 <= right <= |sa|
    requires CompareSorted(text, sa, p) ==>
      (forall i :: 0 <= i < left ==> PatternCompare(p, SuffixAt(text, sa[i])) > 0) &&
      (forall i :: left <= i < |sa| ==> PatternCompare(p, SuffixAt(text, sa[i])) <= 0)
    requires CompareSorted(text, sa, p) ==>
      (forall i :: 0 <= i < right ==> PatternCompare(p, SuffixAt(text, sa[i])) >= 0) &&
      (forall i :: right <= i < |sa| ==> PatternCompare(p, SuffixAt(text, sa[i])) < 0)
    ensures left <= right
    ensures var r := Sort(sa[left..right]);
      Increasing(r) &&
      (forall q :: q in r <==> q in Occurrences(text, p)) &&
      |r| == |Occurrences(text, p)|
  {
    SuffixArrayCompareSorted(text, sa, p);
    BoundsAreOccurrences(text, sa, p, left, right);
    var r := Sort(sa[left..right]);
    SortMembers(sa[left..right]);
    SortDistinct(sa[left..right]);
    IncreasingIsDistinct(r);
    OccurrenceCount(r, Occurrences(text, p));
  }

  /** A sequence without repeats has as many elements as the set of its members. */
  lemma {:induction false} OccurrenceCount(r: seq<int>, occ: set<int>)
    requires Distinct(r)
    requires forall q :: q in r <==> q in occ
    ensures |r| == |occ|
  {
    DistinctCard(r);
    var members := set i | 0 <= i < |r| :: r[i];
    forall x | x in occ ensures x in members {
      var i :| 0 <= i < |r| && r[i] == x;
    }
    assert occ == members;
  }

  /** `exists`: whether the pattern occurs at all. */
  method Exists(text: seq<int>, sa: seq<int>, pattern: seq<int>, patternLen: nat)
    returns (found: bool)
    requires patternLen <= |pattern|
    ensures patternLen == 0 || |text| == 0 ==> !found
    ensures patternLen > 0 && |text| > 0 ==>
      (found <==> LeftBound(text, sa, pattern[..patternLen]) < RightBound(text, sa, pattern[..patternLen]))
    ensures patternLen > 0 && IsSuffixArray(text, sa) ==>
      (found <==> Occurrences(text, pattern[..patternLen]) != {})
  {
    if patternLen == 0 || |text| == 0 {
      return false;
    }
    var left := FindLeft(text, sa, pattern, patternLen);
    var right := FindRight(text, sa, pattern, patternLen);
    found := left < right;
    if IsSuffixArray(text, sa) {
      BoundsNonEmpty(text, sa, pattern[..patternLen], left, right);
    }
  }

  /** Over a suffix array, the bounded slots are non-empty exactly when the pattern occurs. */
  lemma {:induction false} BoundsNonEmpty(text: seq<int>, sa: seq<int>, p: seq<int>, left: int, right: int)
    requires IsSuffixArray(text, sa)
    requires 0 <= left <= |sa| && 0 <= right <= |sa|
    requires CompareSorted(text, sa, p) ==>
      (forall i :: 0 <= i < left ==> PatternCompare(p, SuffixAt(text, sa[i])) > 0) &&
      (forall i :: left <= i < |sa| ==> PatternCompare(p, SuffixAt(text, sa[i])) <= 0)
    requires CompareSorted(text, sa, p) ==>
      (forall i :: 0 <= i < right ==> PatternCompare(p, SuffixAt(text, sa[i])) >= 0) &&
      (forall i :: right <= i < |sa| ==> PatternCompare(p, SuffixAt(text, sa[i])) < 0)
    ensures left < right <==> Occurrences(text, p) != {}
  {
    SuffixArrayCompareSorted(text, sa, p);
    BoundsAreOccurrences(text, sa, p, left, right);
    if left < right {
      assert sa[left] in sa[left..right];
    }
    if Occurrences(text, p) != {} {
      var q :| q in Occurrences(text, p);
      assert q in sa[left..right];
    }
  }

  /** `count`: the number of occurrences of the pattern. */
  method Count(text: seq<int>, sa: seq<int>, pattern: seq<int>, patternLen: nat)
    returns (n: int)
    requires patternLen <= |pattern|
    ensures patternLen == 0 || |text| == 0 ==> n == 0
    ensures patternLen > 0 && |text| > 0 ==>
      n == RightBound(text, sa, pattern[..patternLen]) - LeftBound(text, sa, pattern[..patternLen])
    ensures patternLen > 0 && IsSuffixArray(text, sa) ==>
      n == |Occurrences(text, pattern[..patternLen])|
  {
    if patternLen == 0 || |text| == 0 {
      return 0;
    }
    var left := FindLeft(text, sa, pattern, patternLen);
    var right := FindRight(text, sa, pattern, patternLen);
    n := right - left;
    if IsSuffixArray(text, sa) {
      ghost var p := pattern[..patternLen];
      SuffixArrayCompareSorted(text, sa, p);
      BoundsAreOccurrences(text, sa, p, left, right);
      OccurrenceCount(sa[left..right], Occurrences(text, p));
    }
  }

  /** `findAll` on a whole string: the pointer-and-length version with the full length. */
  method FindAllString(text: seq<int>, sa: seq<int>, pattern: seq<int>) returns (result: seq<int>)
    ensures |pattern| == 0 || |text| == 0 ==> result == []
    ensures |pattern| > 0 && |text| > 0 ==>
      var l, r := LeftBound(text, sa, pattern), RightBound(text, sa, pattern);
      result == Sort(if l < r then sa[l..r] else [])
    ensures NonDecreasing(result)
    ensures forall q :: q in result ==> q in sa
    ensures |pattern| > 0 && IsSuffixArray(text, sa) ==>
      Increasing(result) && forall q :: q in result <==> q in Occurrences(text, pattern)
  {
    result := FindAll(text, sa, pattern, |pattern|);
    assert pattern[..|pattern|] == pattern;
  }

  /**
   * Over a suffix array, `findAll` of a non-empty pattern returns the one
   * ascending list that holds exactly the pattern's occurrences.
   */
  method FindAllAscending(text: seq<int>, sa: seq<int>, pattern: seq<int>, expected: seq<int>)
    returns (all: seq<int>)
    requires IsSuffixArray(text, sa) && |pattern| > 0
    requires Increasing(expected) && forall q :: q in expected <==> q in Occurrences(text, pattern)
    ensures all == expected
  {
    all := FindAllString(text, sa, pattern);
    IncreasingUnique(all, expected);
  }

  /** `exists` on a whole string. */
  method ExistsString(text: seq<int>, sa: seq<int>, pattern: seq<int>) returns (found: bool)
    ensures |pattern| == 0 || |text| == 0 ==> !found
    ensures |pattern| > 0 && |text| > 0 ==>
      (found <==> LeftBound(text, sa, pattern) < RightBound(text, sa, pattern))
    ensures |pattern| > 0 && IsSuffixArray(text, sa) ==> (found <==> Occurrences(text, pattern) != {})
  {
    found := Exists(text, sa, pattern, |pattern|);
    assert pattern[..|pattern|] == pattern;
  }

  /** `count` on a whole string. */
  method CountString(text: seq<int>, sa: seq<int>, pattern: seq<int>) returns (n: int)
    ensures |pattern| == 0 || |text| == 0 ==> n == 0
    ensures |pattern| > 0 && |text| > 0 ==> n == RightBound(text, sa, pattern) - LeftBound(text, sa, pattern)
    ensures |pattern| > 0 && IsSuffixArray(text, sa) ==> n == |Occurrences(text, pattern)|
  {
    n := Count(text, sa, pattern, |pattern|);
    assert pattern[..|pattern|] == pattern;
  }

  // Scenarios from the repository's tests, over suffix arrays of the texts.

  const Banana: seq<int> := [98, 97, 110, 97, 110, 97]  // "banana"
  const BananaSa: seq<int> := [5, 3, 1, 0, 4, 2]

  lemma {:induction false} BananaSlot1()
    ensures LexLess(Banana[5..], Banana[3..])
  {
    LexLessAfterCommon(Banana, 6, 4, 0);
    LexLessCons(Banana, 5, 3);
  }

  lemma {:induction false} BananaSlot2()
    ensures LexLess(Banana[3..], Banana[1..])
  {
    LexLessAfterCommon(Banana, 6, 4, 0);
    LexLessCons(Banana, 5, 3);
    LexLessCons(Banana, 4, 2);
    LexLessCons(Banana, 3, 1);
  }

  lemma {:induction false} BananaSlot3()
    ensures LexLess(Banana[1..], Banana[0..])
  {
    LexLessAfterCommon(Banana, 1, 0, 0);
  }

  lemma {:induction false} BananaSlot4()
    ensures LexLess(Banana[0..], Banana[4..])
  {
    LexLessAfterCommon(Banana, 0, 4, 0);
  }

  lemma {:induction false} BananaSlot5()
    ensures LexLess(Banana[4..], Banana[2..])
  {
    LexLessAfterCommon(Banana, 6, 4, 0);
    LexLessCons(Banana, 5, 3);
    LexLessCons(Banana, 4, 2);
  }

  lemma {:induction false} BananaSuffixArraySlots1To5(r: int)
    requires 1 <= r <= 5
    ensures LexLess(Banana[BananaSa[r - 1]..], Banana[BananaSa[r]..])
  {
    if r == 1 {
      assert BananaSa[r - 1] == 5 && BananaSa[r] == 3;
      BananaSlot1();
    } else if r == 2 {
      assert BananaSa[r - 1] == 3 && BananaSa[r] == 1;
      BananaSlot2();
    } else if r == 3 {
      assert BananaSa[r - 1] == 1 && BananaSa[r] == 0;
      BananaSlot3();
    } else if r == 4 {
      assert BananaSa[r - 1] == 0 && BananaSa[r] == 4;
      BananaSlot4();
    } else {
      assert BananaSa[r - 1] == 4 && BananaSa[r] == 2;
      BananaSlot5();
    }
  }

  lemma {:induction false} BananaSuffixArray()
    ensures IsSuffixArray(Banana, BananaSa)
  {
    assert Distinct(BananaSa);
    forall r | 0 < r < |Banana|
      ensures LexLess(Banana[BananaSa[r - 1]..], Banana[BananaSa[r]..])
    {
      BananaSuffixArraySlots1To5(r);
    }
  }

  lemma {:induction false} BananaOccurrences()
    ensures Occurrences(Banana, [97, 110, 97]) == {1, 3}
    ensures Occurrences(Banana, [110, 97]) == {2, 4}
    ensures Occurrences(Banana, [98, 97]) == {0}
    ensures Occurrences(Banana, [120, 121, 122]) == {}
  {
    forall q | 0 <= q < |Banana| ensures OccursAt(Banana, [97, 110, 97], q) <==> q in {1, 3} {
      if q == 1 {
        assert Banana[1] == 97 && Banana[2] == 110 && Banana[3] == 97;
        assert Banana[1..4] == [97, 110, 97];
      } else if q == 3 {
        assert Banana[3] == 97 && Banana[4] == 110 && Banana[5] == 97;
        assert Banana[3..6] == [97, 110, 97];
      } else if q == 5 {
      } else {
        assert Banana[q] != 97;
        MismatchAtStart(Banana, [97, 110, 97], q);
      }
    }
    forall q | 0 <= q < |Banana| ensures OccursAt(Banana, [110, 97], q) <==> q in {2, 4} {
      if q == 2 {
        assert Banana[2] == 110 && Banana[3] == 97;
        assert Banana[2..4] == [110, 97];
      } else if q == 4 {
        assert Banana[4] == 110 && Banana[5] == 97;
        assert Banana[4..6] == [110, 97];
      } else {
        assert Banana[q] != 110;
        MismatchAtStart(Banana, [110, 97], q);
      }
    }
    forall q | 0 <= q < |Banana| ensures OccursAt(Banana, [98, 97], q) <==> q in {0} {
      if q == 0 {
        assert Banana[0] == 98 && Banana[1] == 97;
        assert Banana[0..2] == [98, 97];
      } else {
        assert Banana[q] != 98;
        MismatchAtStart(Banana, [98, 97], q);
      }
    }
    forall q | 0 <= q < |Banana| ensures !OccursAt(Banana, [120, 121, 122], q) {
      assert Banana[q] != 120;
      MismatchAtStart(Banana, [120, 121, 122], q);
    }
  }

  /**
   * The basic search test on "banana", over its suffix array (which
   * `BananaSuffixArray` shows is `BananaSa`): `findAll("ana")` is `[1, 3]`.
   */
  method BananaSearch(text: seq<int>, sa: seq<int>, ana: seq<int>) returns (all: seq<int>)
    requires text == Banana && IsSuffixArray(text, sa) && ana == [97, 110, 97]
    ensures all == [1, 3]
  {
    BananaOccurrences();
    all := FindAllAscending(text, sa, ana, [1, 3]);
  }

  /** The count test on "banana": "na", "ba" and "xyz" occur 2, 1 and 0 times. */
  method BananaCounts(text: seq<int>, sa: seq<int>, na: seq<int>, ba: seq<int>, xyz: seq<int>)
    returns (naCount: int, baCount: int, xyzCount: int)
    requires text == Banana && IsSuffixArray(text, sa)
    requires na == [110, 97] && ba == [98, 97] && xyz == [120, 121, 122]
    ensures naCount == 2 && baCount == 1 && xyzCount == 0
  {
    BananaOccurrences();
    naCount := CountString(text, sa, na);
    baCount := CountString(text, sa, ba);
    xyzCount := CountString(text, sa, xyz);
  }

  /** The exists test on "banana": "ana" exists and "xyz" does not. */
  method BananaExists(text: seq<int>, sa: seq<int>, ana: seq<int>, xyz: seq<int>)
    returns (anaFound: bool, xyzFound: bool)
    requires text == Banana && IsSuffixArray(text, sa) && ana == [97, 110, 97] && xyz == [120, 121, 122]
    ensures anaFound && !xyzFound
  {
    BananaOccurrences();
    anaFound := ExistsString(text, sa, ana);
    xyzFound := ExistsString(text, sa, xyz);
  }

  /** The sentence "Romeo and Juliet. Romeo loves Juliet." in Chinese, as code points. */
  const Sentence: seq<int> := [32599, 23494, 27431, 19982, 26417, 20029, 21494, 12290, 32599, 23494, 27431, 29233, 26417, 20029, 21494, 12290]
  const SentenceSa: seq<int> := [15, 7, 3, 13, 5, 14, 6, 1, 9, 12, 4, 2, 10, 11, 0, 8]

  lemma {:induction false} SentenceSaPermutation()
    ensures IsPermutation(SentenceSa, |Sentence|)
  {
  }

  lemma {:induction false} SentenceSlot1()
    ensures LexLess(Sentence[15..], Sentence[7..])
  {
    LexLessAfterCommon(Sentence, 16, 8, 0);
    LexLessCons(Sentence, 15, 7);
  }

  lemma {:induction false} SentenceSlot2()
    ensures LexLess(Sentence[7..], Sentence[3..])
  {
    LexLessAfterCommon(Sentence, 7, 3, 0);
  }

  lemma {:induction false} SentenceSlot3()
    ensures LexLess(Sentence[3..], Sentence[13..])
  {
    LexLessAfterCommon(Sentence, 3, 13, 0);
  }

  lemma {:induction false} SentenceSlot4()
    ensures LexLess(Sentence[13..], Sentence[5..])
  {
    LexLessAfterCommon(Sentence, 16, 8, 0);
    LexLessCons(Sentence, 15, 7);
    LexLessCons(Sentence, 14, 6);
    LexLessCons(Sentence, 13, 5);
  }

  lemma {:induction false} SentenceSuffixArraySlots1To4(r: int)
    requires 1 <= r <= 4
    ensures LexLess(Sentence[SentenceSa[r - 1]..], Sentence[SentenceSa[r]..])
  {
    if r == 1 {
      assert SentenceSa[r - 1] == 15 && SentenceSa[r] == 7;
      SentenceSlot1();
    } else if r == 2 {
      assert SentenceSa[r - 1] == 7 && SentenceSa[r] == 3;
      SentenceSlot2();
    } else if r == 3 {
      assert SentenceSa[r - 1] == 3 && SentenceSa[r] == 13;
      SentenceSlot3();
    } else {
      assert SentenceSa[r - 1] == 13 && SentenceSa[r] == 5;
      SentenceSlot4();
    }
  }

  lemma {:induction false} SentenceSlot5()
    ensures LexLess(Sentence[5..], Sentence[14..])
  {
    LexLessAfterCommon(Sentence, 5, 14, 0);
  }

  lemma {:induction false} SentenceSlot6()
    ensures LexLess(Sentence[14..], Sentence[6..])
  {
    LexLessAfterCommon(Sentence, 16, 8, 0);
    LexLessCons(Sentence, 15, 7);
    LexLessCons(Sentence, 14, 6);
  }

  lemma {:induction false} SentenceSlot7()
    ensures LexLess(Sentence[6..], Sentence[1..])
  {
    LexLessAfterCommon(Sentence, 6, 1, 0);
  }

  lemma {:induction false} SentenceSlot8()
    ensures LexLess(Sentence[1..], Sentence[9..])
  {
    LexLessAfterCommon(Sentence, 3, 11, 0);
    LexLessCons(Sentence, 2, 10);
    LexLessCons(Sentence, 1, 9);
  }

  lemma {:induction false} SentenceSuffixArraySlots5To8(r: int)
    requires 5 <= r <= 8
    ensures LexLess(Sentence[SentenceSa[r - 1]..], Sentence[SentenceSa[r]..])
  {
    if r == 5 {
      assert SentenceSa[r - 1] == 5 && SentenceSa[r] == 14;
      SentenceSlot5();
    } else if r == 6 {
      assert SentenceSa[r - 1] == 14 && SentenceSa[r] == 6;
      SentenceSlot6();
    } else if r == 7 {
      assert SentenceSa[r - 1] == 6 && SentenceSa[r] == 1;
      SentenceSlot7();
    } else {
      assert SentenceSa[r - 1] == 1 && SentenceSa[r] == 9;
      SentenceSlot8();
    }
  }

  lemma {:induction false} SentenceSlot9()
    ensures LexLess(Sentence[9..], Sentence[12..])
  {
    LexLessAfterCommon(Sentence, 9, 12, 0);
  }

  lemma {:induction false} SentenceSlot10()
    ensures LexLess(Sentence[12..], Sentence[4..])
  {
    LexLessAfterCommon(Sentence, 16, 8, 0);
    LexLessCons(Sentence, 15, 7);
    LexLessCons(Sentence, 14, 6);
    LexLessCons(Sentence, 13, 5);
    LexLessCons(Sentence, 12, 4);
  }

  lemma {:induction false} SentenceSlot11()
    ensures LexLess(Sentence[4..], Sentence[2..])
  {
    LexLessAfterCommon(Sentence, 4, 2, 0);
  }

  lemma {:induction false} SentenceSlot12()
    ensures LexLess(Sentence[2..], Sentence[10..])
  {
    LexLessAfterCommon(Sentence, 3, 11, 0);
    LexLessCons(Sentence, 2, 10);
  }

  lemma {:induction false} SentenceSuffixArraySlots9To12(r: int)
    requires 9 <= r <= 12
    ensures LexLess(Sentence[SentenceSa[r - 1]..], Sentence[SentenceSa[r]..])
  {
    if r == 9 {
      assert SentenceSa[r - 1] == 9 && SentenceSa[r] == 12;
      SentenceSlot9();
    } else if r == 10 {
      assert SentenceSa[r - 1] == 12 && SentenceSa[r] == 4;
      SentenceSlot10();
    } else if r == 11 {
      assert SentenceSa[r - 1] == 4 && SentenceSa[r] == 2;
      SentenceSlot11();
    } else {
      assert SentenceSa[r - 1] == 2 && SentenceSa[r] == 10;
      SentenceSlot12();
    }
  }

  lemma {:induction false} SentenceSlot13()
    ensures LexLess(Sentence[10..], Sentence[11..])
  {
    LexLessAfterCommon(Sentence, 10, 11, 0);
  }

  lemma {:induction false} SentenceSlot14()
    ensures LexLess(Sentence[11..], Sentence[0..])
  {
    LexLessAfterCommon(Sentence, 11, 0, 0);
  }

  lemma {:induction false} SentenceSlot15()
    ensures LexLess(Sentence[0..], Sentence[8..])
  {
    SentenceSlot12();
    LexLessCons(Sentence, 1, 9);
    LexLessCons(Sentence, 0, 8);
  }

  lemma {:induction false} SentenceSuffixArraySlots13To15(r: int)
    requires 13 <= r <= 15
    ensures LexLess(Sentence[SentenceSa[r - 1]..], Sentence[SentenceSa[r]..])
  {
    if r == 13 {
      assert SentenceSa[r - 1] == 10 && SentenceSa[r] == 11;
      SentenceSlot13();
    } else if r == 14 {
      assert SentenceSa[r - 1] == 11 && SentenceSa[r] == 0;
      SentenceSlot14();
    } else {
      assert SentenceSa[r - 1] == 0 && SentenceSa[r] == 8;
      SentenceSlot15();
    }
  }

  lemma {:induction false} SentenceSuffixArray()
    ensures IsSuffixArray(Sentence, SentenceSa)
  {
    SentenceSaPermutation();
    forall r | 0 < r < |Sentence|
      ensures LexLess(Sentence[SentenceSa[r - 1]..], Sentence[SentenceSa[r]..])
    {
      if r <= 4 { SentenceSuffixArraySlots1To4(r); }
      else if r <= 8 { SentenceSuffixArraySlots5To8(r); }
      else if r <= 12 { SentenceSuffixArraySlots9To12(r); }
      else { SentenceSuffixArraySlots13To15(r); }
    }
  }

  lemma {:induction false} RomeoOccurrences()
    ensures Occurrences(Sentence, [32599, 23494, 27431]) == {0, 8}
  {
    forall q | 0 <= q < |Sentence| ensures OccursAt(Sentence, [32599, 23494, 27431], q) <==> q in {0, 8} {
      if q == 0 {
        assert Sentence[0] == 32599 && Sentence[1] == 23494 && Sentence[2] == 27431;
        assert Sentence[0..3] == [32599, 23494, 27431];
      } else if q == 8 {
        assert Sentence[8] == 32599 && Sentence[9] == 23494 && Sentence[10] == 27431;
        assert Sentence[8..11] == [32599, 23494, 27431];
      } else {
        assert Sentence[q] != 32599;
        MismatchAtStart(Sentence, [32599, 23494, 27431], q);
      }
    }
  }

  /**
   * The Chinese text test, over the sentence's suffix array (which
   * `SentenceSuffixArray` shows is `SentenceSa`): `findAll` of "Romeo"
   * finds it at offsets 0 and 8.
   */
  method RomeoSearch(text: seq<int>, sa: seq<int>, romeo: seq<int>) returns (all: seq<int>)
    requires text == Sentence && IsSuffixArray(text, sa) && romeo == [32599, 23494, 27431]
    ensures all == [0, 8]
  {
    RomeoOccurrences();
    all := FindAllAscending(text, sa, romeo, [0, 8]);
  }
}
