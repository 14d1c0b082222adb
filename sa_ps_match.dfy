/**
 * The second matcher, `detail::sa_match` (include/sa-match.hpp): two binary
 * searches over a suffix array for the first and the last slot whose suffix
 * starts with the pattern, then the offsets between them in ascending order.
 *
 * Suffixes are read through `char_traits::compare` on `|t|` code units from
 * the start of the suffix.  A wide string keeps a NUL terminator after its
 * last code unit, so a suffix shorter than the pattern reads that NUL.
 */
module SaPsMatch {
  import opened Sorting
  import opened Suffixes

  /**
   * The code unit at offset `k`: the text itself, then its NUL terminator.
   * Offsets past the terminator are also read as NUL here.
   */
  function CharAt(s: seq<int>, k: int): int {
    if 0 <= k < |s| then s[k] else 0
  }

  /** The `m` code units that `compare` reads from offset `pos`. */
  function Window(s: seq<int>, pos: int, m: nat): seq<int> {
    seq(m, i => CharAt(s, pos + i))
  }

  predicate NonNegative(s: seq<int>) {
    forall i :: 0 <= i < |s| ==> s[i] >= 0
  }

  predicate NoNul(t: seq<int>) {
    forall i :: 0 <= i < |t| ==> t[i] != 0
  }

  /**
   * `char_traits::compare` on two buffers of the same length, reduced to the
   * sign of its result.
   */
  function TraitsCompare(a: seq<int>, b: seq<int>): (c: int)
    requires |a| == |b|
    ensures -1 <= c <= 1
    decreases |a|
  {
    if a == [] then 0
    else if a[0] < b[0] then -1
    else if a[0] > b[0] then 1
    else TraitsCompare(a[1..], b[1..])
  }

  /** The comparison is 0 exactly on equal buffers and negative exactly when `a` sorts first. */
  lemma {:induction false} TraitsCompareSign(a: seq<int>, b: seq<int>)
    requires |a| == |b|
    ensures TraitsCompare(a, b) == 0 <==> a == b
    ensures TraitsCompare(a, b) < 0 <==> LexLess(a, b)
    decreases |a|
  {
    if a != [] {
      TraitsCompareSign(a[1..], b[1..]);
      assert a == [a[0]] + a[1..] && b == [b[0]] + b[1..];
    }
  }

  /** What the search sees at slot `i`: the text at `sa[i]` compared with the pattern. */
  function SlotCompare(s: seq<int>, sa: seq<int>, t: seq<int>, i: int): int
    requires 0 <= i < |sa|
  {
    TraitsCompare(Window(s, sa[i], |t|), t)
  }

  /** The comparison at each of the first `|s|` slots. */
  function Compares(s: seq<int>, sa: seq<int>, t: seq<int>): (c: seq<int>)
    requires |s| <= |sa|
    ensures |c| == |s|
  {
    ComparesUpTo(s, sa, t, |s|)
  }

  function ComparesUpTo(s: seq<int>, sa: seq<int>, t: seq<int>, k: nat): (c: seq<int>)
    requires k <= |sa|
    ensures |c| == k
  {
    if k == 0 then [] else ComparesUpTo(s, sa, t, k - 1) + [SlotCompare(s, sa, t, k - 1)]
  }

  lemma {:induction false} ComparesUpToAt(s: seq<int>, sa: seq<int>, t: seq<int>, k: nat, i: int)
    requires k <= |sa| && 0 <= i < k
    ensures ComparesUpTo(s, sa, t, k)[i] == SlotCompare(s, sa, t, i)
  {
    if i < k - 1 {
      ComparesUpToAt(s, sa, t, k - 1, i);
    }
  }

  /** Entry `i` of the comparisons is what the search sees at slot `i`. */
  lemma {:induction false} CompareAt(s: seq<int>, sa: seq<int>, t: seq<int>, i: int)
    requires |s| <= |sa| && 0 <= i < |s|
    ensures Compares(s, sa, t)[i] == SlotCompare(s, sa, t, i)
  {
    ComparesUpToAt(s, sa, t, |s|, i);
  }

  /** The slots of the text's length are readable, at offsets from 0 to the terminator. */
  predicate SaReadable(s: seq<int>, sa: seq<int>) {
    |s| <= |sa| && forall i :: 0 <= i < |s| ==> 0 <= sa[i] <= |s|
  }

  /**
   * The `bin` lambda from a state `l`, `r`, `ans` of its loop, over the
   * comparison results `c` of the slots: with `first` it keeps searching left
   * of a match, otherwise right of it.
   */
  function Bisect(c: seq<int>, first: bool, l: int, r: int, ans: int): int
    requires 0 <= l && r < |c|
    decreases r - l + 1
  {
    if l > r then ans
    else
      var mid := (l + r) / 2;
      if c[mid] == 0 then
        if first then Bisect(c, first, l, mid - 1, mid)
        else Bisect(c, first, mid + 1, r, mid)
      else if c[mid] > 0 then Bisect(c, first, l, mid - 1, ans)
      else Bisect(c, first, mid + 1, r, ans)
  }

  /** `bin(first)` over the whole suffix array. */
  method Bin(s: seq<int>, sa: seq<int>, t: seq<int>, first: bool) returns (ans: int)
    requires |s| <= |sa|
    ensures var c := Compares(s, sa, t); ans == Bisect(c, first, 0, |c| - 1, -1)
  {
    ghost var c := Compares(s, sa, t);
    var n := |s|;
    var l, r := 0, n - 1;
    ans := -1;
    while l <= r
      invariant 0 <= l && r < n
      invariant Bisect(c, first, l, r, ans) == Bisect(c, first, 0, n - 1, -1)
      decreases r - l + 1
    {
      var mid := (l + r) / 2;
      var cmp := SlotCompare(s, sa, t, mid);
      CompareAt(s, sa, t, mid);
      if cmp == 0 {
        ans := mid;
        if first {
          r := mid - 1;
        } else {
          l := mid + 1;
        }
      } else if cmp > 0 {
        r := mid - 1;
      } else {
        l := mid + 1;
      }
    }
  }

  /** A search returns its current answer or a matching slot between its bounds. */
  lemma {:induction false} BisectRange(c: seq<int>, first: bool, l: int, r: int, ans: int)
    requires 0 <= l && r < |c|
    ensures var res := Bisect(c, first, l, r, ans);
      res == ans || (l <= res <= r && c[res] == 0)
    decreases r - l + 1
  {
    if l <= r {
      var mid := (l + r) / 2;
      if c[mid] == 0 {
        if first {
          BisectRange(c, first, l, mid - 1, mid);
        } else {
          BisectRange(c, first, mid + 1, r, mid);
        }
      } else if c[mid] > 0 {
        BisectRange(c, first, l, mid - 1, ans);
      } else {
        BisectRange(c, first, mid + 1, r, ans);
      }
    }
  }

  /**
   * Whatever the suffix array holds, the two searches agree on whether there
   * is a match, and the first one never lands right of the second one: they
   * take the same path up to the first match and part there.
   */
  lemma {:induction false} BisectOrdered(c: seq<int>, l: int, r: int, ans: int)
    requires 0 <= l && r < |c| && -1 <= ans
    ensures var lo, hi := Bisect(c, true, l, r, ans), Bisect(c, false, l, r, ans);
      (lo == -1 <==> hi == -1) && lo <= hi
    decreases r - l + 1
  {
    if l <= r {
      var mid := (l + r) / 2;
      if c[mid] == 0 {
        BisectRange(c, true, l, mid - 1, mid);
        BisectRange(c, false, mid + 1, r, mid);
      } else if c[mid] > 0 {
        BisectOrdered(c, l, mid - 1, ans);
      } else {
        BisectOrdered(c, mid + 1, r, ans);
      }
    }
  }

  /** Over the whole array, either both searches fail or they bound a slice. */
  lemma {:induction false} BisectBounds(c: seq<int>)
    ensures var lo, hi := Bisect(c, true, 0, |c| - 1, -1), Bisect(c, false, 0, |c| - 1, -1);
      (lo == -1 <==> hi == -1) && (lo != -1 ==> 0 <= lo <= hi < |c|)
  {
    BisectOrdered(c, 0, |c| - 1, -1);
    BisectRange(c, true, 0, |c| - 1, -1);
    BisectRange(c, false, 0, |c| - 1, -1);
  }

  /** `res` is the first slot that matches, or -1 when none does. */
  predicate IsFirstMatch(c: seq<int>, res: int) {
    if res == -1 then forall i :: 0 <= i < |c| ==> c[i] != 0
    else (0 <= res < |c| && c[res] == 0 && forall i :: 0 <= i < res ==> c[i] != 0)
  }

  /** `res` is the last slot that matches, or -1 when none does. */
  predicate IsLastMatch(c: seq<int>, res: int) {
    if res == -1 then forall i :: 0 <= i < |c| ==> c[i] != 0
    else (0 <= res < |c| && c[res] == 0 && forall i :: res < i < |c| ==> c[i] != 0)
  }

  /** Negative slots before `neg`, positive slots from `pos` on, zeros between. */
  predicate Signs(c: seq<int>, neg: int, pos: int) {
    0 <= neg <= pos <= |c| &&
    forall i :: 0 <= i < |c| ==> (c[i] < 0 <==> i < neg) && (c[i] > 0 <==> pos <= i)
  }

  /** Sorted slots fall into a run of negatives, a run of zeros and a run of positives. */
  lemma {:induction false} SignRuns(c: seq<int>) returns (neg: int, pos: int)
    requires NonDecreasing(c)
    ensures Signs(c, neg, pos)
  {
    neg := 0;
    while neg < |c| && c[neg] < 0
      invariant 0 <= neg <= |c| && forall i :: 0 <= i < neg ==> c[i] < 0
    {
      neg := neg + 1;
    }
    pos := neg;
    while pos < |c| && c[pos] == 0
      invariant neg <= pos <= |c| && forall i :: neg <= i < pos ==> c[i] == 0
    {
      pos := pos + 1;
    }
    forall i | 0 <= i < |c| ensures (c[i] < 0 <==> i < neg) && (c[i] > 0 <==> pos <= i) {
      if neg <= i {
        assert c[neg] <= c[i];
      }
      if pos <= i {
        assert c[pos] <= c[i];
      }
    }
  }

  /** One probe of `bin`: which half it continues in. */
  lemma {:induction false} BisectProbe(c: seq<int>, first: bool, l: int, r: int, ans: int, mid: int)
    requires 0 <= l <= r < |c| && mid == (l + r) / 2
    ensures c[mid] == 0 && first ==> Bisect(c, first, l, r, ans) == Bisect(c, first, l, mid - 1, mid)
    ensures c[mid] == 0 && !first ==> Bisect(c, first, l, r, ans) == Bisect(c, first, mid + 1, r, mid)
    ensures c[mid] > 0 ==> Bisect(c, first, l, r, ans) == Bisect(c, first, l, mid - 1, ans)
    ensures c[mid] < 0 ==> Bisect(c, first, l, r, ans) == Bisect(c, first, mid + 1, r, ans)
  {
  }

  /** What `bin(true)` knows between probes: slots left of `l` are below the pattern, right of `r` not below it. */
  predicate FirstWindow(c: seq<int>, l: int, r: int, ans: int) {
    0 <= l <= r + 1 <= |c| &&
    (forall i :: 0 <= i < l ==> c[i] < 0) &&
    (forall i :: r < i < |c| ==> c[i] >= 0) &&
    (ans == -1 ==> forall i :: r < i < |c| ==> c[i] > 0) &&
    (ans != -1 ==> r < ans < |c| && c[ans] == 0 && forall i :: r < i < ans ==> c[i] > 0)
  }

  /** What `bin(false)` knows between probes: slots left of `l` are not above the pattern, right of `r` above it. */
  predicate LastWindow(c: seq<int>, l: int, r: int, ans: int) {
    0 <= l <= r + 1 <= |c| &&
    (forall i :: 0 <= i < l ==> c[i] <= 0) &&
    (forall i :: r < i < |c| ==> c[i] > 0) &&
    (ans == -1 ==> forall i :: 0 <= i < l ==> c[i] < 0) &&
    (ans != -1 ==> 0 <= ans < l && c[ans] == 0 && forall i :: ans < i < l ==> c[i] < 0)
  }

  /** On sorted slots, `bin(true)` finds the first match. */
  lemma {:induction false} BisectFirst(c: seq<int>, l: int, r: int, ans: int, neg: int, pos: int)
    requires Signs(c, neg, pos) && FirstWindow(c, l, r, ans)
    ensures IsFirstMatch(c, Bisect(c, true, l, r, ans))
    decreases r - l + 1, 1
  {
    if l <= r {
      var mid := (l + r) / 2;
      BisectProbe(c, true, l, r, ans, mid);
      if c[mid] == 0 {
        FirstHit(c, l, r, ans, neg, pos, mid);
      } else if c[mid] > 0 {
        FirstLeft(c, l, r, ans, neg, pos, mid);
      } else {
        FirstRight(c, l, r, ans, neg, pos, mid);
      }
    }
  }

  /** A probe of `bin(true)` that matches: remember it and search the left half. */
  lemma {:induction false} FirstHit(c: seq<int>, l: int, r: int, ans: int, neg: int, pos: int, mid: int)
    requires Signs(c, neg, pos) && FirstWindow(c, l, r, ans)
    requires l <= mid <= r && c[mid] == 0
    ensures IsFirstMatch(c, Bisect(c, true, l, mid - 1, mid))
    decreases r - l + 1, 0
  {
    BisectFirst(c, l, mid - 1, mid, neg, pos);
  }

  /** A probe of `bin(true)` above the pattern: search the left half. */
  lemma {:induction false} FirstLeft(c: seq<int>, l: int, r: int, ans: int, neg: int, pos: int, mid: int)
    requires Signs(c, neg, pos) && FirstWindow(c, l, r, ans)
    requires l <= mid <= r && c[mid] > 0
    ensures IsFirstMatch(c, Bisect(c, true, l, mid - 1, ans))
    decreases r - l + 1, 0
  {
    BisectFirst(c, l, mid - 1, ans, neg, pos);
  }

  /** A probe of `bin(true)` below the pattern: search the right half. */
  lemma {:induction false} FirstRight(c: seq<int>, l: int, r: int, ans: int, neg: int, pos: int, mid: int)
    requires Signs(c, neg, pos) && FirstWindow(c, l, r, ans)
    requires l <= mid <= r && c[mid] < 0
    ensures IsFirstMatch(c, Bisect(c, true, mid + 1, r, ans))
    decreases r - l + 1, 0
  {
    BisectFirst(c, mid + 1, r, ans, neg, pos);
  }

  /** On sorted slots, `bin(false)` finds the last match. */
  lemma {:induction false} BisectLast(c: seq<int>, l: int, r: int, ans: int, neg: int, pos: int)
    requires Signs(c, neg, pos) && LastWindow(c, l, r, ans)
    ensures IsLastMatch(c, Bisect(c, false, l, r, ans))
    decreases r - l + 1, 1
  {
    if l <= r {
      var mid := (l + r) / 2;
      BisectProbe(c, false, l, r, ans, mid);
      if c[mid] == 0 {
        LastHit(c, l, r, ans, neg, pos, mid);
      } else if c[mid] > 0 {
        LastLeft(c, l, r, ans, neg, pos, mid);
      } else {
        LastRight(c, l, r, ans, neg, pos, mid);
      }
    }
  }

  /** A probe of `bin(false)` that matches: remember it and search the right half. */
  lemma {:induction false} LastHit(c: seq<int>, l: int, r: int, ans: int, neg: int, pos: int, mid: int)
    requires Signs(c, neg, pos) && LastWindow(c, l, r, ans)
    requires l <= mid <= r && c[mid] == 0
    ensures IsLastMatch(c, Bisect(c, false, mid + 1, r, mid))
    decreases r - l + 1, 0
  {
    BisectLast(c, mid + 1, r, mid, neg, pos);
  }

  /** A probe of `bin(false)` above the pattern: search the left half. */
  lemma {:induction false} LastLeft(c: seq<int>, l: int, r: int, ans: int, neg: int, pos: int, mid: int)
    requires Signs(c, neg, pos) && LastWindow(c, l, r, ans)
    requires l <= mid <= r && c[mid] > 0
    ensures IsLastMatch(c, Bisect(c, false, l, mid - 1, ans))
    decreases r - l + 1, 0
  {
    BisectLast(c, l, mid - 1, ans, neg, pos);
  }

  /** A probe of `bin(false)` below the pattern: search the right half. */
  lemma {:induction false} LastRight(c: seq<int>, l: int, r: int, ans: int, neg: int, pos: int, mid: int)
    requires Signs(c, neg, pos) && LastWindow(c, l, r, ans)
    requires l <= mid <= r && c[mid] < 0
    ensures IsLastMatch(c, Bisect(c, false, mid + 1, r, ans))
    decreases r - l + 1, 0
  {
    BisectLast(c, mid + 1, r, ans, neg, pos);
  }

  /** On sorted slots, the two searches bound exactly the matching slots. */
  lemma {:induction false} MatchSlice(c: seq<int>)
    requires NonDecreasing(c)
    ensures var lo, hi := Bisect(c, true, 0, |c| - 1, -1), Bisect(c, false, 0, |c| - 1, -1);
      (lo == -1 ==> forall i :: 0 <= i < |c| ==> c[i] != 0) &&
      (lo != -1 ==>
        0 <= lo <= hi < |c| &&
        forall i :: 0 <= i < |c| ==> (c[i] == 0 <==> lo <= i <= hi))
  {
    var neg, pos := SignRuns(c);
    BisectFirst(c, 0, |c| - 1, -1, neg, pos);
    BisectLast(c, 0, |c| - 1, -1, neg, pos);
    BisectBounds(c);
  }

  /** The entries of slots `lo` .. `hi`, sorted, or none when `lo` is -1. */
  function SortedSlice(sa: seq<int>, lo: int, hi: int): (r: seq<int>)
    requires lo == -1 || 0 <= lo <= hi < |sa|
    ensures NonDecreasing(r)
    ensures lo == -1 ==> r == []
    ensures lo != -1 ==> multiset(r) == multiset(sa[lo..hi + 1])
  {
    if lo == -1 then [] else Sort(sa[lo..hi + 1])
  }

  /** The entries from the first to the last matching slot, sorted, or none. */
  function MatchedSlots(sa: seq<int>, c: seq<int>): (r: seq<int>)
    requires |c| <= |sa|
    ensures NonDecreasing(r)
  {
    BisectBounds(c);
    SortedSlice(sa, Bisect(c, true, 0, |c| - 1, -1), Bisect(c, false, 0, |c| - 1, -1))
  }

  /** The matched entries are the sorted slice between the two search results. */
  lemma {:induction false} MatchedSlotsShape(sa: seq<int>, c: seq<int>)
    requires |c| <= |sa|
    ensures var lo, hi := Bisect(c, true, 0, |c| - 1, -1), Bisect(c, false, 0, |c| - 1, -1);
      (lo == -1 || 0 <= lo <= hi < |c|) && MatchedSlots(sa, c) == SortedSlice(sa, lo, hi)
  {
    BisectBounds(c);
  }

  /** Every offset returned is one of the searched slots' entries. */
  lemma {:induction false} MatchedSlotsFromSa(sa: seq<int>, c: seq<int>)
    requires |c| <= |sa|
    ensures forall q :: q in MatchedSlots(sa, c) ==> q in sa[..|c|]
  {
    var lo, hi := Bisect(c, true, 0, |c| - 1, -1), Bisect(c, false, 0, |c| - 1, -1);
    BisectBounds(c);
    if lo != -1 {
      SortMembers(sa[lo..hi + 1]);
      forall q | q in sa[lo..hi + 1] ensures q in sa[..|c|] {
        var k :| 0 <= k < hi + 1 - lo && sa[lo..hi + 1][k] == q;
        assert sa[..|c|][lo + k] == q;
      }
    }
  }

  /**
   * The value of `sa_match(s, sa, t)`: nothing for a pattern longer than the
   * text, a direct comparison for one as long as the text, and otherwise the
   * slots from the first to the last match, sorted.
   */
  function SaMatchSpec(s: seq<int>, sa: seq<int>, t: seq<int>): (r: seq<int>)
    requires |s| > |t| ==> SaReadable(s, sa)
    ensures |s| < |t| ==> r == []
    ensures |s| == |t| ==> r == (if s == t then [0] else [])
    ensures NonDecreasing(r)
  {
    if |s| < |t| then []
    else if |s| == |t| then (if s == t then [0] else [])
    else MatchedSlots(sa, Compares(s, sa, t))
  }

  /** `sa_match`: the offsets at which the text's suffixes start with the pattern. */
  method SaMatch(s: seq<int>, sa: seq<int>, t: seq<int>) returns (result: seq<int>)
    requires |s| > |t| ==> SaReadable(s, sa)
    ensures result == SaMatchSpec(s, sa, t)
  {
    if |s| < |t| {
      return [];
    }
    if |s| == |t| {
      if s == t {
        return [0];
      }
      return [];
    }
    assert |s| <= |sa|;
    ghost var c := Compares(s, sa, t);
    assert SaMatchSpec(s, sa, t) == MatchedSlots(sa, c);
    var ansl := Bin(s, sa, t, true);
    var ansr := Bin(s, sa, t, false);
    MatchedSlotsShape(sa, c);
    if ansl == -1 {
      return [];
    }
    result := CollectSorted(sa, ansl, ansr);
    assert result == SortedSlice(sa, ansl, ansr);
  }

  /**
   * The tail of `sa_match`: the `ansr - ansl + 1` entries from `sa[ansl]` to
   * `sa[ansr]`, copied into a new vector and sorted ascending.
   */
  method CollectSorted(sa: seq<int>, ansl: int, ansr: int) returns (result: seq<int>)
    requires 0 <= ansl <= ansr < |sa|
    ensures result == Sort(sa[ansl..ansr + 1])
  {
    var ans := new int[ansr - ansl + 1];
    var i, j := ansl, 0;
    while i <= ansr
      invariant ansl <= i <= ansr + 1 && j == i - ansl
      invariant forall k :: 0 <= k < j ==> ans[k] == sa[ansl + k]
    {
      ans[j] := sa[i];
      i, j := i + 1, j + 1;
    }
    var copied := ans[..];
    assert copied == sa[ansl..ansr + 1];
    result := Sort(copied);
  }

  /** With a pattern of `m` code units, the window at `pos` is the text or ends in NUL. */
  lemma {:induction false} WindowOccurs(s: seq<int>, t: seq<int>, pos: int)
    requires NoNul(t) && 0 <= pos <= |s|
    ensures Window(s, pos, |t|) == t <==> OccursAt(s, t, pos)
  {
    var w := Window(s, pos, |t|);
    if pos + |t| <= |s| {
      forall k | 0 <= k < |t| ensures w[k] == s[pos..pos + |t|][k] {
        assert w[k] == CharAt(s, pos + k);
      }
      assert w == s[pos..pos + |t|];
    } else {
      assert w[|s| - pos] == CharAt(s, |s|) == 0;
      assert w[|s| - pos] != t[|s| - pos];
    }
  }

  /** Once past the text, only NUL is read, which no non-negative text undercuts. */
  lemma {:induction false} PastEndLeast(s: seq<int>, k: int, j: int, m: nat)
    requires NonNegative(s) && k >= |s|
    ensures var x, y := Window(s, k, m), Window(s, j, m); x == y || LexLess(x, y)
    decreases m
  {
    if m > 0 {
      PastEndLeast(s, k + 1, j + 1, m - 1);
      WindowCons(s, k, m);
      WindowCons(s, j, m);
    }
  }

  lemma {:induction false} WindowCons(s: seq<int>, pos: int, m: nat)
    requires m > 0
    ensures Window(s, pos, m) == [CharAt(s, pos)] + Window(s, pos + 1, m - 1)
  {
  }

  /** Ordered suffixes of a non-negative text read as ordered (or equal) windows. */
  lemma {:induction false} WindowMonotone(s: seq<int>, i: int, j: int, m: nat)
    requires NonNegative(s) && 0 <= i <= |s| && 0 <= j <= |s|
    requires LexLess(s[i..], s[j..])
    ensures var x, y := Window(s, i, m), Window(s, j, m); x == y || LexLess(x, y)
    decreases m
  {
    if m > 0 {
      WindowCons(s, i, m);
      WindowCons(s, j, m);
      if i == |s| {
        PastEndLeast(s, i + 1, j + 1, m - 1);
      } else if s[i] == s[j] {
        LexTail(s, i, j);
        WindowMonotone(s, i + 1, j + 1, m - 1);
      }
    }
  }

  /** A larger window never compares lower against the same pattern. */
  lemma {:induction false} CompareMonotone(a: seq<int>, b: seq<int>, t: seq<int>)
    requires |a| == |b| == |t|
    requires a == b || LexLess(a, b)
    ensures TraitsCompare(a, t) <= TraitsCompare(b, t)
    decreases |a|
  {
    if a != b && a[0] == b[0] {
      CompareMonotone(a[1..], b[1..], t[1..]);
    }
  }

  /** Over a suffix array of a non-negative text, the slots are sorted for every pattern. */
  lemma {:induction false} SuffixArrayCompareSorted(s: seq<int>, sa: seq<int>, t: seq<int>)
    requires IsSuffixArray(s, sa) && NonNegative(s)
    ensures NonDecreasing(Compares(s, sa, t))
  {
    var c := Compares(s, sa, t);
    forall i, j | 0 <= i < j < |s| ensures c[i] <= c[j] {
      CompareAt(s, sa, t, i);
      CompareAt(s, sa, t, j);
      SuffixArraySorted(s, sa, i, j);
      WindowMonotone(s, sa[i], sa[j], |t|);
      CompareMonotone(Window(s, sa[i], |t|), Window(s, sa[j], |t|), t);
    }
  }

  /**
   * Over a permutation with sorted comparisons, the answer holds exactly the
   * entries of the matching slots, each once and ascending.
   */
  lemma {:induction false} MatchedSlotsExact(sa: seq<int>, c: seq<int>)
    requires IsPermutation(sa, |c|) && NonDecreasing(c)
    ensures Increasing(MatchedSlots(sa, c))
    ensures forall i :: 0 <= i < |c| ==> (sa[i] in MatchedSlots(sa, c) <==> c[i] == 0)
  {
    MatchSlice(c);
    MatchedSlotsShape(sa, c);
    var lo, hi := Bisect(c, true, 0, |c| - 1, -1), Bisect(c, false, 0, |c| - 1, -1);
    if lo != -1 {
      SortedSliceExact(sa, |c|, lo, hi);
    }
  }

  /** Sorting a slice of a permutation gives its entries, each once, ascending. */
  lemma {:induction false} SortedSliceExact(sa: seq<int>, n: nat, lo: int, hi: int)
    requires IsPermutation(sa, n) && 0 <= lo <= hi < n
    ensures Increasing(SortedSlice(sa, lo, hi))
    ensures forall i :: 0 <= i < n ==> (sa[i] in SortedSlice(sa, lo, hi) <==> lo <= i <= hi)
  {
    SliceDistinct(sa, n, lo, hi + 1);
    SortDistinct(sa[lo..hi + 1]);
    forall i | 0 <= i < n ensures sa[i] in Sort(sa[lo..hi + 1]) <==> lo <= i <= hi {
      SortedSliceMember(sa, n, lo, hi, i);
    }
  }

  lemma {:induction false} SortedSliceMember(sa: seq<int>, n: nat, lo: int, hi: int, i: int)
    requires IsPermutation(sa, n) && 0 <= lo <= hi < n && 0 <= i < n
    ensures sa[i] in Sort(sa[lo..hi + 1]) <==> lo <= i <= hi
  {
    SliceMember(sa, n, lo, hi + 1, i);
    SortMember(sa[lo..hi + 1], sa[i], lo <= i <= hi);
  }

  /** A slot matches exactly when its suffix starts with the pattern. */
  lemma {:induction false} SlotMatchesOccurrence(s: seq<int>, sa: seq<int>, t: seq<int>, i: int)
    requires SaReadable(s, sa) && NoNul(t) && 0 <= i < |s|
    ensures SlotCompare(s, sa, t, i) == 0 <==> OccursAt(s, t, sa[i])
  {
    TraitsCompareSign(Window(s, sa[i], |t|), t);
    WindowOccurs(s, t, sa[i]);
  }

  /**
   * Over a suffix array of a non-negative text, with a non-empty pattern free
   * of NUL that is shorter than the text, `sa_match` returns exactly the
   * occurrence offsets, ascending.
   */
  lemma {:induction false} SaMatchExactShorter(s: seq<int>, sa: seq<int>, t: seq<int>)
    requires IsSuffixArray(s, sa) && NonNegative(s) && NoNul(t) && |s| > |t| > 0
    ensures var r := SaMatchSpec(s, sa, t);
      Increasing(r) && forall q :: q in r <==> OccursAt(s, t, q)
  {
    var n := |s|;
    var c := Compares(s, sa, t);
    var r := MatchedSlots(sa, c);
    assert SaMatchSpec(s, sa, t) == r;
    SuffixArrayCompareSorted(s, sa, t);
    MatchedSlotsExact(sa, c);
    MatchedSlotsFromSa(sa, c);
    forall q ensures q in r <==> OccursAt(s, t, q) {
      if OccursAt(s, t, q) {
        var i := PermutationInverse(sa, n, q);
        CompareAt(s, sa, t, i);
        SlotMatchesOccurrence(s, sa, t, i);
      }
      if q in r {
        assert q in sa[..n];
        var i :| 0 <= i < n && sa[i] == q;
        CompareAt(s, sa, t, i);
        SlotMatchesOccurrence(s, sa, t, i);
      }
    }
  }

  /**
   * Over a suffix array of a non-negative text, with a non-empty pattern free
   * of NUL, `sa_match` returns exactly the occurrence offsets, ascending.
   */
  lemma {:induction false} SaMatchExact(s: seq<int>, sa: seq<int>, t: seq<int>)
    requires IsSuffixArray(s, sa) && NonNegative(s) && NoNul(t) && |t| > 0
    ensures var r := SaMatchSpec(s, sa, t);
      Increasing(r) && forall q :: q in r <==> OccursAt(s, t, q)
  {
    if |s| > |t| {
      SaMatchExactShorter(s, sa, t);
    } else if |s| == |t| {
      assert s[0..|t|] == s;
    }
  }

  /** When every slot matches, the answer is the whole array, sorted. */
  lemma {:induction false} AllSlotsMatch(sa: seq<int>, c: seq<int>)
    requires 0 < |c| == |sa|
    requires forall i :: 0 <= i < |c| ==> c[i] == 0
    ensures MatchedSlots(sa, c) == Sort(sa)
  {
    assert NonDecreasing(c);
    MatchSlice(c);
    MatchedSlotsShape(sa, c);
    var lo, hi := Bisect(c, true, 0, |c| - 1, -1), Bisect(c, false, 0, |c| - 1, -1);
    assert c[0] == 0 && c[|c| - 1] == 0;
    assert lo == 0 && hi == |c| - 1;
    SortedWhole(sa);
  }

  lemma {:induction false} SortedWhole(sa: seq<int>)
    requires |sa| > 0
    ensures SortedSlice(sa, 0, |sa| - 1) == Sort(sa)
  {
    assert sa[0..|sa|] == sa;
  }

  /**
   * An empty pattern over a non-empty text matches every slot, so the answer
   * is every offset when the suffix array is a permutation.
   */
  lemma {:induction false} SaMatchEmptyPattern(s: seq<int>, sa: seq<int>)
    requires |s| > 0 && IsPermutation(sa, |s|)
    ensures SaMatchSpec(s, sa, []) == Range(|s|)
  {
    var c := Compares(s, sa, []);
    forall i | 0 <= i < |s| ensures c[i] == 0 {
      CompareAt(s, sa, [], i);
    }
    AllSlotsMatch(sa, c);
    SortPermutation(sa, |s|);
  }

  /**
   * Over a suffix array of a non-negative text, with a pattern free of NUL
   * (possibly empty), `sa_match` returns ascending offsets, each of which is
   * an occurrence of the pattern.
   */
  lemma {:induction false} SaMatchSound(s: seq<int>, sa: seq<int>, t: seq<int>)
    requires IsSuffixArray(s, sa) && NonNegative(s) && NoNul(t)
    ensures var r := SaMatchSpec(s, sa, t);
      Increasing(r) && forall q :: q in r ==> OccursAt(s, t, q)
  {
    if |t| > 0 {
      SaMatchExact(s, sa, t);
    } else if |s| > 0 {
      SaMatchEmptyPattern(s, sa);
      RangeMembers(|s|);
    } else {
      assert s[0..0] == t;
    }
  }
}
