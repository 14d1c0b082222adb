/**
 * Suffixes of a text of code points, their lexicographic order (a proper
 * prefix sorts first), suffix arrays and longest common prefixes.
 */
module Suffixes {
  import opened Sorting

  /** Lexicographic order on code-point sequences; a proper prefix sorts first. */
  predicate LexLess(x: seq<int>, y: seq<int>)
    decreases |x|
  {
    if x == [] then y != []
    else if y == [] then false
    else x[0] < y[0] || (x[0] == y[0] && LexLess(x[1..], y[1..]))
  }

  /** Length of the longest common prefix of `x` and `y`. */
  function CommonPrefix(x: seq<int>, y: seq<int>): (c: nat)
    ensures c <= |x| && c <= |y|
    decreases |x|
  {
    if x == [] || y == [] || x[0] != y[0] then 0
    else 1 + CommonPrefix(x[1..], y[1..])
  }

  /** `p` occurs in `s` at offset `q`. */
  predicate OccursAt(s: seq<int>, p: seq<int>, q: int) {
    0 <= q && q + |p| <= |s| && s[q..q + |p|] == p
  }

  /** `sa` holds each of 0 .. n-1 exactly once. */
  predicate IsPermutation(sa: seq<int>, n: nat) {
    |sa| == n && (forall i :: 0 <= i < n ==> 0 <= sa[i] < n) && Distinct(sa)
  }

  /** The suffix array of `s`: its offsets, sorted by the suffixes that start there. */
  predicate IsSuffixArray(s: seq<int>, sa: seq<int>) {
    IsPermutation(sa, |s|) &&
    forall r :: 0 < r < |s| ==> LexLess(s[sa[r - 1]..], s[sa[r]..])
  }

  lemma {:induction false} LexIrreflexive(x: seq<int>)
    ensures !LexLess(x, x)
    decreases |x|
  {
    if x != [] { LexIrreflexive(x[1..]); }
  }

  lemma {:induction false} LexTransitive(x: seq<int>, y: seq<int>, z: seq<int>)
    requires LexLess(x, y) && LexLess(y, z)
    ensures LexLess(x, z)
    decreases |x|
  {
    if x != [] && y != [] && z != [] && x[0] == y[0] && y[0] == z[0] {
      LexTransitive(x[1..], y[1..], z[1..]);
    }
  }

  lemma {:induction false} LexTotal(x: seq<int>, y: seq<int>)
    requires x != y
    ensures LexLess(x, y) || LexLess(y, x)
    decreases |x|
  {
    if x != [] && y != [] && x[0] == y[0] {
      assert x == [x[0]] + x[1..] && y == [y[0]] + y[1..];
      LexTotal(x[1..], y[1..]);
    }
  }

  lemma {:induction false} LexAsymmetric(x: seq<int>, y: seq<int>)
    requires LexLess(x, y)
    ensures !LexLess(y, x)
  {
    if LexLess(y, x) {
      LexTransitive(x, y, x);
      LexIrreflexive(x);
    }
  }

  /** Two suffixes that start with the same code point are ordered as their tails. */
  lemma {:induction false} LexTail(s: seq<int>, j: int, i: int)
    requires 0 <= j < |s| && 0 <= i < |s| && s[j] == s[i]
    requires LexLess(s[j..], s[i..])
    ensures LexLess(s[j + 1..], s[i + 1..])
  {
    assert s[j..][1..] == s[j + 1..];
    assert s[i..][1..] == s[i + 1..];
  }

  /**
   * Two suffixes that agree on their first `k` code points are ordered by
   * what follows: the end of the text, or the code point at offset `k`.
   */
  lemma {:induction false} LexLessAfterCommon(s: seq<int>, i: int, j: int, k: nat)
    requires 0 <= i && 0 <= j && i + k <= |s| && j + k < |s|
    requires s[i..i + k] == s[j..j + k]
    requires i + k == |s| || s[i + k] < s[j + k]
    ensures LexLess(s[i..], s[j..])
    decreases k
  {
    if k > 0 {
      assert s[i] == s[i..i + k][0] && s[j] == s[j..j + k][0];
      assert s[i + 1..i + k] == s[i..i + k][1..] && s[j + 1..j + k] == s[j..j + k][1..];
      LexLessAfterCommon(s, i + 1, j + 1, k - 1);
      assert s[i..][1..] == s[i + 1..] && s[j..][1..] == s[j + 1..];
    }
  }

  /** Two suffixes that start with the same code point are ordered as their tails. */
  lemma {:induction false} LexLessCons(s: seq<int>, i: int, j: int)
    requires 0 <= i < |s| && 0 <= j < |s| && s[i] == s[j]
    requires LexLess(s[i + 1..], s[j + 1..])
    ensures LexLess(s[i..], s[j..])
  {
    assert s[i..][1..] == s[i + 1..];
    assert s[j..][1..] == s[j + 1..];
  }

  /** A text whose code point at `q` differs from the pattern's first has no occurrence at `q`. */
  lemma {:induction false} MismatchAtStart(s: seq<int>, p: seq<int>, q: int)
    requires |p| > 0 && 0 <= q < |s| && s[q] != p[0]
    ensures !OccursAt(s, p, q)
  {
    if q + |p| <= |s| {
      assert s[q..q + |p|][0] == s[q];
    }
  }

  /** Facts that pin `CommonPrefix` down: the prefixes agree up to it and differ just after. */
  lemma {:induction false} CommonPrefixFacts(x: seq<int>, y: seq<int>)
    ensures var c := CommonPrefix(x, y);
      x[..c] == y[..c] && (c == |x| || c == |y| || x[c] != y[c])
    decreases |x|
  {
    if x != [] && y != [] && x[0] == y[0] {
      CommonPrefixFacts(x[1..], y[1..]);
      var c := CommonPrefix(x[1..], y[1..]);
      assert x[..c + 1] == [x[0]] + x[1..][..c];
      assert y[..c + 1] == [y[0]] + y[1..][..c];
    }
  }

  /** Any prefix on which `x` and `y` agree is no longer than `CommonPrefix(x, y)`. */
  lemma {:induction false} CommonPrefixMaximal(x: seq<int>, y: seq<int>, k: nat)
    requires k <= |x| && k <= |y| && x[..k] == y[..k]
    ensures k <= CommonPrefix(x, y)
    decreases |x|
  {
    if k > 0 {
      assert x[0] == x[..k][0] && y[0] == y[..k][0];
      assert x[1..][..k - 1] == x[..k][1..] && y[1..][..k - 1] == y[..k][1..];
      CommonPrefixMaximal(x[1..], y[1..], k - 1);
    }
  }

  /**
   * If `x <= y < z` then `y` shares at least as long a prefix with `z` as `x`
   * does: the step at the heart of Kasai's LCP algorithm.
   */
  lemma {:induction false} CommonPrefixSandwich(x: seq<int>, y: seq<int>, z: seq<int>)
    requires x == y || LexLess(x, y)
    requires LexLess(y, z)
    ensures CommonPrefix(x, z) <= CommonPrefix(y, z)
    decreases |x|
  {
    if x != y && x != [] && z != [] && x[0] == z[0] {
      assert y != [];
      assert x[0] == y[0];
      CommonPrefixSandwich(x[1..], y[1..], z[1..]);
    }
  }

  /** In a suffix array, every earlier slot holds a smaller suffix. */
  lemma {:induction false} SuffixArraySorted(s: seq<int>, sa: seq<int>, r1: int, r2: int)
    requires IsSuffixArray(s, sa)
    requires 0 <= r1 < r2 < |s|
    ensures LexLess(s[sa[r1]..], s[sa[r2]..])
    decreases r2 - r1
  {
    if r1 + 1 < r2 {
      SuffixArraySorted(s, sa, r1, r2 - 1);
      LexTransitive(s[sa[r1]..], s[sa[r2 - 1]..], s[sa[r2]..]);
    }
  }

  /** Distinct offsets start distinct suffixes (they differ in length). */
  lemma {:induction false} DistinctSuffixes(s: seq<int>, i: int, j: int)
    requires 0 <= i <= |s| && 0 <= j <= |s| && i != j
    ensures s[i..] != s[j..]
  {
    assert |s[i..]| != |s[j..]|;
  }

  lemma {:induction false} DistinctCard(s: seq<int>)
    requires Distinct(s)
    ensures |set i | 0 <= i < |s| :: s[i]| == |s|
  {
    if s != [] {
      var t := s[..|s| - 1];
      DistinctCard(t);
      var st := set i | 0 <= i < |t| :: t[i];
      var ss := set i | 0 <= i < |s| :: s[i];
      assert ss == st + {s[|s| - 1]};
      assert s[|s| - 1] !in st;
    }
  }

  /** The offsets 0 .. n-1 as a set. */
  function RangeSet(n: nat): (r: set<int>)
    ensures forall p :: p in r <==> 0 <= p < n
    ensures |r| == n
  {
    if n == 0 then {} else
      assert n - 1 !in RangeSet(n - 1);
      RangeSet(n - 1) + {n - 1}
  }

  /** A permutation of 0 .. n-1 holds every offset somewhere. */
  lemma {:induction false} PermutationCovers(sa: seq<int>, n: nat)
    requires IsPermutation(sa, n)
    ensures forall p :: 0 <= p < n ==> p in sa
  {
    var vals := set i | 0 <= i < n :: sa[i];
    var all := RangeSet(n);
    DistinctCard(sa);
    assert vals <= all;
    assert all == vals + (all - vals);
    assert |all - vals| == 0;
    assert forall x :: x in all ==> x in vals;
    forall p | 0 <= p < n ensures p in sa {
      assert p in all;
      assert p in vals;
    }
  }

  /** The slot at which each offset stands in a permutation. */
  lemma {:induction false} PermutationInverse(sa: seq<int>, n: nat, p: int) returns (r: int)
    requires IsPermutation(sa, n) && 0 <= p < n
    ensures 0 <= r < n && sa[r] == p
  {
    PermutationCovers(sa, n);
    assert p in sa;
    r :| 0 <= r < n && sa[r] == p;
  }

  /** A slice of a permutation has no repeated entries. */
  lemma {:induction false} SliceDistinct(sa: seq<int>, n: nat, lo: int, hi: int)
    requires IsPermutation(sa, n) && 0 <= lo <= hi <= |sa|
    ensures Distinct(sa[lo..hi])
  {
    forall i, j | 0 <= i < j < hi - lo ensures sa[lo..hi][i] != sa[lo..hi][j] {
      assert sa[lo..hi][i] == sa[lo + i] && sa[lo..hi][j] == sa[lo + j];
    }
  }

  /** Sorting a permutation of 0 .. n-1 gives 0 .. n-1. */
  lemma {:induction false} SortPermutation(sa: seq<int>, n: nat)
    requires IsPermutation(sa, n)
    ensures Sort(sa) == Range(n)
  {
    var r := Sort(sa);
    SortDistinct(sa);
    SortMembers(sa);
    PermutationCovers(sa, n);
    RangeMembers(n);
    forall x ensures x in r <==> x in Range(n) {
      if x in sa {
        var k :| 0 <= k < n && sa[k] == x;
      }
    }
    IncreasingUnique(r, Range(n));
  }

  /** An entry of a permutation lies in a slice exactly when its slot does. */
  lemma {:induction false} SliceMember(sa: seq<int>, n: nat, lo: int, hi: int, i: int)
    requires IsPermutation(sa, n) && 0 <= lo <= hi <= n && 0 <= i < n
    ensures sa[i] in sa[lo..hi] <==> lo <= i < hi
  {
    if lo <= i < hi {
      assert sa[lo..hi][i - lo] == sa[i];
    }
    if sa[i] in sa[lo..hi] {
      var k :| 0 <= k < hi - lo && sa[lo..hi][k] == sa[i];
      assert sa[lo + k] == sa[i];
    }
  }
}
