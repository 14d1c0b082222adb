/**
 * Word groups of the second lineage (include/grouped-data.hpp): a group is an
 * AND or an OR of words, built by appending, and `grouped_match` folds the
 * words' occurrence lists left to right with a distance-aware two-pointer
 * merge.
 */
module GroupedData {
  import opened Sorting
  import opened Suffixes
  import opened SaPsMatch
  import opened AndOr

  datatype GroupType = And | Or

  /** The default `max_distance` of `string_data::search` on a group. */
  const DefaultMaxDistance: int := 5

  /** A `grouped_data`: its type, fixed at construction, and its words in order. */
  class Group {
    const kind: GroupType
    var strs: seq<seq<int>>

    constructor (kind: GroupType, strs: seq<seq<int>>)
      ensures this.kind == kind && this.strs == strs
    {
      this.kind := kind;
      this.strs := strs;
    }

    /** `g &= s` and `g |= s`: the word is pushed onto the end in place. */
    method Append(s: seq<int>)
      modifies this
      ensures strs == old(strs) + [s]
    {
      strs := strs + [s];
    }
  }

  /** `s1 & s2` and `s1 | s2`: a new group of exactly the two words. */
  method Pair(kind: GroupType, s1: seq<int>, s2: seq<int>) returns (g: Group)
    ensures fresh(g) && g.kind == kind && g.strs == [s1, s2]
  {
    g := new Group(kind, [s1, s2]);
  }

  /** `g & s` and `g | s`: a copy of `g` with `s` appended; `g` is left as it was. */
  method Extended(g: Group, s: seq<int>) returns (r: Group)
    ensures fresh(r) && r.kind == g.kind && r.strs == g.strs + [s]
    ensures g.strs == old(g.strs)
  {
    r := new Group(g.kind, g.strs);
    r.Append(s);
  }

  /**
   * `s & g` and `s | g`: the word on the left still goes to the END of the
   * copy, exactly as for `g & s`.
   */
  method ExtendedLeft(s: seq<int>, g: Group) returns (r: Group)
    ensures fresh(r) && r.kind == g.kind && r.strs == g.strs + [s]
    ensures g.strs == old(g.strs)
  {
    r := Extended(g, s);
  }

  /** Two offsets close enough to be merged: `abs(x - y) <= md`. */
  predicate Near(x: int, y: int, md: int) {
    (if x < y then y - x else x - y) <= md
  }

  function Min(x: int, y: int): int {
    if x < y then x else y
  }

  /**
   * One round of the AND fold, from pointers `j` into `a` and `k` into `b`:
   * a close pair yields its smaller offset and advances both pointers,
   * otherwise the pointer at the smaller offset advances.
   */
  function AndFrom(a: seq<int>, b: seq<int>, md: int, j: nat, k: nat): seq<int>
    requires j <= |a| && k <= |b|
    decreases |a| - j + |b| - k
  {
    if j == |a| || k == |b| then []
    else if Near(a[j], b[k], md) then [Min(a[j], b[k])] + AndFrom(a, b, md, j + 1, k + 1)
    else if a[j] < b[k] then AndFrom(a, b, md, j + 1, k)
    else AndFrom(a, b, md, j, k + 1)
  }

  /**
   * One round of the OR fold: as the AND round, but an offset that is not
   * merged is kept, and what remains of either list once the other runs out
   * is copied.
   */
  function OrFrom(a: seq<int>, b: seq<int>, md: int, j: nat, k: nat): seq<int>
    requires j <= |a| && k <= |b|
    decreases |a| - j + |b| - k
  {
    if j == |a| then b[k..]
    else if k == |b| then a[j..]
    else if Near(a[j], b[k], md) then [Min(a[j], b[k])] + OrFrom(a, b, md, j + 1, k + 1)
    else if a[j] < b[k] then [a[j]] + OrFrom(a, b, md, j + 1, k)
    else [b[k]] + OrFrom(a, b, md, j, k + 1)
  }

  function Step(kind: GroupType, a: seq<int>, b: seq<int>, md: int): seq<int> {
    if kind == And then AndFrom(a, b, md, 0, 0) else OrFrom(a, b, md, 0, 0)
  }

  /** The fold of `grouped_match` over the occurrence lists, left to right. */
  function Fold(kind: GroupType, lists: seq<seq<int>>, md: int): seq<int>
    requires |lists| > 0
  {
    if |lists| == 1 then lists[0]
    else Step(kind, Fold(kind, lists[..|lists| - 1], md), lists[|lists| - 1], md)
  }

  /** Every word can be looked up: `sa` is readable wherever `sa_match` reads it. */
  predicate Searchable(str: seq<int>, sa: seq<int>, words: seq<seq<int>>) {
    forall i :: 0 <= i < |words| ==> (|str| > |words[i]| ==> SaReadable(str, sa))
  }

  /** `fevery`: the `sa_match` list of each word. */
  function Matches(str: seq<int>, sa: seq<int>, words: seq<seq<int>>): seq<seq<int>>
    requires Searchable(str, sa, words)
  {
    seq(|words|, i requires 0 <= i < |words| => SaMatchSpec(str, sa, words[i]))
  }

  /**
   * Over a suffix array of a non-negative text, entry `i` of `fevery` is the
   * ascending list of the occurrences of word `i`, when that word is non-empty
   * and free of NUL.
   */
  lemma {:induction false} MatchesExact(str: seq<int>, sa: seq<int>, words: seq<seq<int>>, i: int)
    requires IsSuffixArray(str, sa) && NonNegative(str)
    requires 0 <= i < |words| && NoNul(words[i]) && |words[i]| > 0
    ensures var r := Matches(str, sa, words);
      |r| == |words| && Increasing(r[i]) && forall q :: q in r[i] <==> OccursAt(str, words[i], q)
  {
    SaMatchExact(str, sa, words[i]);
  }

  /** The value of `grouped_match(str, sa, data, md)`. */
  function GroupedMatchSpec(str: seq<int>, sa: seq<int>, kind: GroupType, words: seq<seq<int>>, md: int): (r: seq<int>)
    requires Searchable(str, sa, words)
    ensures words == [] ==> r == Range(|str|)
    ensures |words| == 1 ==> r == SaMatchSpec(str, sa, words[0])
  {
    if words == [] then Range(|str|)
    else Fold(kind, Matches(str, sa, words), md)
  }

  /** The AND merge loop of one round. */
  method MergeAnd(a: seq<int>, b: seq<int>, md: int) returns (buffer: seq<int>)
    ensures buffer == AndFrom(a, b, md, 0, 0)
  {
    var j, k := 0, 0;
    buffer := [];
    while j < |a| && k < |b|
      invariant 0 <= j <= |a| && 0 <= k <= |b|
      invariant buffer + AndFrom(a, b, md, j, k) == AndFrom(a, b, md, 0, 0)
      decreases |a| - j + |b| - k
    {
      if Near(a[j], b[k], md) {
        buffer := buffer + [Min(a[j], b[k])];
        j, k := j + 1, k + 1;
      } else if a[j] < b[k] {
        j := j + 1;
      } else {
        k := k + 1;
      }
    }
  }

  /** The OR merge loop of one round, with its two tail-copying loops. */
  method MergeOr(a: seq<int>, b: seq<int>, md: int) returns (buffer: seq<int>)
    ensures buffer == OrFrom(a, b, md, 0, 0)
  {
    var j, k := 0, 0;
    buffer := [];
    while j < |a| && k < |b|
      invariant 0 <= j <= |a| && 0 <= k <= |b|
      invariant buffer + OrFrom(a, b, md, j, k) == OrFrom(a, b, md, 0, 0)
      decreases |a| - j + |b| - k
    {
      if Near(a[j], b[k], md) {
        Push(buffer, Min(a[j], b[k]), OrFrom(a, b, md, j + 1, k + 1), OrFrom(a, b, md, 0, 0));
        buffer := buffer + [Min(a[j], b[k])];
        j, k := j + 1, k + 1;
      } else if a[j] < b[k] {
        Push(buffer, a[j], OrFrom(a, b, md, j + 1, k), OrFrom(a, b, md, 0, 0));
        buffer := buffer + [a[j]];
        j := j + 1;
      } else {
        Push(buffer, b[k], OrFrom(a, b, md, j, k + 1), OrFrom(a, b, md, 0, 0));
        buffer := buffer + [b[k]];
        k := k + 1;
      }
    }
    assert OrFrom(a, b, md, j, k) == a[j..] + b[k..];
    buffer := CopyRest(buffer, a, j, b, k);
  }

  /** Moving the head of what is left onto the end of the buffer keeps the whole. */
  lemma {:induction false} Push(buffer: seq<int>, x: int, rest: seq<int>, whole: seq<int>)
    requires whole == buffer + ([x] + rest)
    ensures whole == (buffer + [x]) + rest
  {
  }

  /** The two tail loops of an OR round: what is left of `ans`, then of the next list. */
  method CopyRest(buffer0: seq<int>, a: seq<int>, j0: nat, b: seq<int>, k0: nat) returns (buffer: seq<int>)
    requires j0 <= |a| && k0 <= |b|
    ensures buffer == buffer0 + (a[j0..] + b[k0..])
  {
    buffer := buffer0;
    var j, k := j0, k0;
    while j < |a|
      invariant j <= |a|
      invariant buffer + (a[j..] + b[k..]) == buffer0 + (a[j0..] + b[k0..])
    {
      assert a[j..] + b[k..] == [a[j]] + (a[j + 1..] + b[k..]);
      buffer := buffer + [a[j]];
      j := j + 1;
    }
    while k < |b|
      invariant k <= |b|
      invariant buffer + (a[j..] + b[k..]) == buffer0 + (a[j0..] + b[k0..])
    {
      assert a[j..] + b[k..] == [b[k]] + (a[j..] + b[k + 1..]);
      buffer := buffer + [b[k]];
      k := k + 1;
    }
    assert a[j..] + b[k..] == [];
  }

  /** `std::iota` over a vector of `n` entries. */
  method Iota(n: nat) returns (r: seq<int>)
    ensures r == Range(n)
  {
    var ans := new int[n];
    for i := 0 to n
      invariant forall p :: 0 <= p < i ==> ans[p] == p
    {
      ans[i] := i;
    }
    r := ans[..];
  }

  /** Appending entry `i` of `lists` to its first `i` entries gives its first `i + 1`. */
  lemma {:induction false} Grow(lists: seq<seq<int>>, i: int, prefix: seq<seq<int>>, m: seq<int>)
    requires 0 <= i < |lists| && prefix == lists[..i] && m == lists[i]
    ensures prefix + [m] == lists[..i + 1]
  {
    assert lists[..i + 1] == lists[..i] + [lists[i]];
  }

  /** The `fevery` loop: `sa_match` for each word in turn. */
  method MatchEach(str: seq<int>, sa: seq<int>, words: seq<seq<int>>) returns (fevery: seq<seq<int>>)
    requires Searchable(str, sa, words)
    ensures fevery == Matches(str, sa, words)
  {
    ghost var lists := Matches(str, sa, words);
    fevery := [];
    for i := 0 to |words|
      invariant fevery == lists[..i]
    {
      var m := SaMatch(str, sa, words[i]);
      Grow(lists, i, fevery, m);
      fevery := fevery + [m];
    }
  }

  /** The rounds of `grouped_match`: merge each list into `ans`, then swap. */
  method FoldRounds(kind: GroupType, fevery: seq<seq<int>>, md: int) returns (ans: seq<int>)
    requires |fevery| > 0
    ensures ans == Fold(kind, fevery, md)
  {
    ans := fevery[0];
    for i := 1 to |fevery|
      invariant ans == Fold(kind, fevery[..i], md)
    {
      var buffer;
      if kind == And {
        buffer := MergeAnd(ans, fevery[i], md);
      } else {
        buffer := MergeOr(ans, fevery[i], md);
      }
      assert fevery[..i + 1][..i] == fevery[..i];
      ans := buffer;
    }
    assert fevery[..|fevery|] == fevery;
  }

  /** `grouped_match` on an AND or an OR group. */
  method GroupedMatch(str: seq<int>, sa: seq<int>, g: Group, md: int) returns (ans: seq<int>)
    requires Searchable(str, sa, g.strs)
    ensures ans == GroupedMatchSpec(str, sa, g.kind, g.strs, md)
  {
    var words := g.strs;
    if |words| == 0 {
      ans := Iota(|str|);
      return;
    }
    var fevery := MatchEach(str, sa, words);
    ans := FoldRounds(g.kind, fevery, md);
  }

  /** An entry of an increasing list bounds the entries of its later suffixes. */
  lemma {:induction false} SuffixBound(a: seq<int>, j: int, z: int)
    requires Increasing(a) && 0 <= j < |a| && z in a[j + 1..]
    ensures a[j] < z
  {
    var i :| 0 <= i < |a[j + 1..]| && a[j + 1..][i] == z;
    assert a[j + 1 + i] == z;
  }

  /** An AND round yields no more offsets than either list has left. */
  lemma {:induction false} AndFromLength(a: seq<int>, b: seq<int>, md: int, j: nat, k: nat)
    requires j <= |a| && k <= |b|
    ensures |AndFrom(a, b, md, j, k)| <= |a| - j
    ensures |AndFrom(a, b, md, j, k)| <= |b| - k
    decreases |a| - j + |b| - k
  {
    if j < |a| && k < |b| {
      if Near(a[j], b[k], md) {
        AndFromLength(a, b, md, j + 1, k + 1);
      } else if a[j] < b[k] {
        AndFromLength(a, b, md, j + 1, k);
      } else {
        AndFromLength(a, b, md, j, k + 1);
      }
    }
  }

  /**
   * Each offset an AND round yields is the smaller of a close pair: one
   * offset from each list, at most `md` apart.
   */
  lemma {:induction false} AndFromWitness(a: seq<int>, b: seq<int>, md: int, j: nat, k: nat, z: int)
      returns (p: int, q: int)
    requires j <= |a| && k <= |b| && z in AndFrom(a, b, md, j, k)
    ensures j <= p < |a| && k <= q < |b|
    ensures Near(a[p], b[q], md) && z == Min(a[p], b[q])
    decreases |a| - j + |b| - k
  {
    if Near(a[j], b[k], md) {
      if z == Min(a[j], b[k]) {
        p, q := j, k;
      } else {
        p, q := AndFromWitness(a, b, md, j + 1, k + 1, z);
      }
    } else if a[j] < b[k] {
      p, q := AndFromWitness(a, b, md, j + 1, k, z);
    } else {
      p, q := AndFromWitness(a, b, md, j, k + 1, z);
    }
  }

  /** An AND round of two strictly increasing lists is strictly increasing. */
  lemma {:induction false} AndFromIncreasing(a: seq<int>, b: seq<int>, md: int, j: nat, k: nat)
    requires j <= |a| && k <= |b| && Increasing(a) && Increasing(b)
    ensures Increasing(AndFrom(a, b, md, j, k))
    decreases |a| - j + |b| - k
  {
    if j < |a| && k < |b| {
      if Near(a[j], b[k], md) {
        var rest := AndFrom(a, b, md, j + 1, k + 1);
        AndFromIncreasing(a, b, md, j + 1, k + 1);
        forall z | z in rest ensures Min(a[j], b[k]) < z {
          var p, q := AndFromWitness(a, b, md, j + 1, k + 1, z);
        }
        IncreasingCons(Min(a[j], b[k]), rest);
      } else if a[j] < b[k] {
        AndFromIncreasing(a, b, md, j + 1, k);
      } else {
        AndFromIncreasing(a, b, md, j, k + 1);
      }
    }
  }

  /**
   * An OR round keeps every offset except the larger one of each merged
   * pair, and the merged pairs are exactly the AND round's output.
   */
  lemma {:induction false} OrFromLength(a: seq<int>, b: seq<int>, md: int, j: nat, k: nat)
    requires j <= |a| && k <= |b|
    ensures |OrFrom(a, b, md, j, k)| == (|a| - j) + (|b| - k) - |AndFrom(a, b, md, j, k)|
    decreases |a| - j + |b| - k
  {
    if j < |a| && k < |b| {
      if Near(a[j], b[k], md) {
        OrFromLength(a, b, md, j + 1, k + 1);
      } else if a[j] < b[k] {
        OrFromLength(a, b, md, j + 1, k);
      } else {
        OrFromLength(a, b, md, j, k + 1);
      }
    }
  }

  /** Every offset an OR round yields comes from what is left of one of the lists. */
  lemma {:induction false} OrFromSource(a: seq<int>, b: seq<int>, md: int, j: nat, k: nat)
    requires j <= |a| && k <= |b|
    ensures forall z :: z in OrFrom(a, b, md, j, k) ==> z in a[j..] || z in b[k..]
    decreases |a| - j + |b| - k
  {
    if j < |a| && k < |b| {
      assert a[j..] == [a[j]] + a[j + 1..] && b[k..] == [b[k]] + b[k + 1..];
      if Near(a[j], b[k], md) {
        OrFromSource(a, b, md, j + 1, k + 1);
      } else if a[j] < b[k] {
        OrFromSource(a, b, md, j + 1, k);
      } else {
        OrFromSource(a, b, md, j, k + 1);
      }
    }
  }

  /**
   * With a non-negative `md`, an OR round of two strictly increasing lists is
   * strictly increasing: equal offsets are always merged.
   */
  lemma {:induction false} OrFromIncreasing(a: seq<int>, b: seq<int>, md: int, j: nat, k: nat)
    requires j <= |a| && k <= |b| && Increasing(a) && Increasing(b) && md >= 0
    ensures Increasing(OrFrom(a, b, md, j, k))
    decreases |a| - j + |b| - k
  {
    if j < |a| && k < |b| {
      if Near(a[j], b[k], md) {
        var rest := OrFrom(a, b, md, j + 1, k + 1);
        OrFromIncreasing(a, b, md, j + 1, k + 1);
        OrFromSource(a, b, md, j + 1, k + 1);
        forall z | z in rest ensures Min(a[j], b[k]) < z {
          if z in a[j + 1..] { SuffixBound(a, j, z); } else { SuffixBound(b, k, z); }
        }
        IncreasingCons(Min(a[j], b[k]), rest);
      } else if a[j] < b[k] {
        var rest := OrFrom(a, b, md, j + 1, k);
        OrFromIncreasing(a, b, md, j + 1, k);
        OrFromSource(a, b, md, j + 1, k);
        forall z | z in rest ensures a[j] < z {
          if z in a[j + 1..] {
            SuffixBound(a, j, z);
          } else if z != b[k] {
            assert b[k..] == [b[k]] + b[k + 1..];
            SuffixBound(b, k, z);
          }
        }
        IncreasingCons(a[j], rest);
      } else {
        var rest := OrFrom(a, b, md, j, k + 1);
        OrFromIncreasing(a, b, md, j, k + 1);
        OrFromSource(a, b, md, j, k + 1);
        forall z | z in rest ensures b[k] < z {
          if z in b[k + 1..] {
            SuffixBound(b, k, z);
          } else if z != a[j] {
            assert a[j..] == [a[j]] + a[j + 1..];
            SuffixBound(a, j, z);
          }
        }
        IncreasingCons(b[k], rest);
      }
    }
  }

  /**
   * Offset `x` survives in `r`: it is there itself, or `others[q]` (with
   * `q >= k`) is there, at most `md` below it.
   */
  predicate Covered(x: int, r: seq<int>, others: seq<int>, k: int, q: int, md: int) {
    x in r || (0 <= k <= q < |others| && others[q] in r && others[q] < x <= others[q] + md)
  }

  /** Coverage survives putting another offset in front of the output. */
  lemma {:induction false} CoveredCons(x: int, m: int, rest: seq<int>, others: seq<int>, k: int, k2: int, q: int, md: int)
    requires 0 <= k <= k2 && Covered(x, rest, others, k2, q, md)
    ensures Covered(x, [m] + rest, others, k, q, md)
  {
    if x in rest {
      assert x in [m] + rest;
    } else {
      assert others[q] in [m] + rest;
    }
  }

  /**
   * An OR round keeps each offset of the left list, unless the offset `b[q]`
   * of the right list, at most `md` below it, was kept in its place.
   */
  lemma {:induction false} OrKeepsLeft(a: seq<int>, b: seq<int>, md: int, j: nat, k: nat, p: int) returns (q: int)
    requires j <= p < |a| && k <= |b|
    ensures Covered(a[p], OrFrom(a, b, md, j, k), b, k, q, md)
    decreases |a| - j + |b| - k
  {
    q := k;
    if k == |b| {
      assert a[j..][p - j] == a[p];
    } else if Near(a[j], b[k], md) {
      if p > j {
        q := OrKeepsLeft(a, b, md, j + 1, k + 1, p);
        CoveredCons(a[p], Min(a[j], b[k]), OrFrom(a, b, md, j + 1, k + 1), b, k, k + 1, q, md);
      }
    } else if a[j] < b[k] {
      if p > j {
        q := OrKeepsLeft(a, b, md, j + 1, k, p);
        CoveredCons(a[p], a[j], OrFrom(a, b, md, j + 1, k), b, k, k, q, md);
      }
    } else {
      q := OrKeepsLeft(a, b, md, j, k + 1, p);
      CoveredCons(a[p], b[k], OrFrom(a, b, md, j, k + 1), b, k, k + 1, q, md);
    }
  }

  /**
   * An OR round keeps each offset of the right list, unless the offset `a[p]`
   * of the left list, at most `md` below it, was kept in its place.
   */
  lemma {:induction false} OrKeepsRight(a: seq<int>, b: seq<int>, md: int, j: nat, k: nat, q: int) returns (p: int)
    requires j <= |a| && k <= q < |b|
    ensures Covered(b[q], OrFrom(a, b, md, j, k), a, j, p, md)
    decreases |a| - j + |b| - k
  {
    p := j;
    if j == |a| {
      assert b[k..][q - k] == b[q];
    } else if Near(a[j], b[k], md) {
      if q > k {
        p := OrKeepsRight(a, b, md, j + 1, k + 1, q);
        CoveredCons(b[q], Min(a[j], b[k]), OrFrom(a, b, md, j + 1, k + 1), a, j, j + 1, p, md);
      }
    } else if a[j] < b[k] {
      p := OrKeepsRight(a, b, md, j + 1, k, q);
      CoveredCons(b[q], a[j], OrFrom(a, b, md, j + 1, k), a, j, j + 1, p, md);
    } else {
      if q > k {
        p := OrKeepsRight(a, b, md, j, k + 1, q);
        CoveredCons(b[q], b[k], OrFrom(a, b, md, j, k + 1), a, j, j, p, md);
      }
    }
  }

  /** An OR round is at least as long as either of its lists. */
  lemma {:induction false} OrRoundLongest(a: seq<int>, b: seq<int>, md: int)
    ensures |OrFrom(a, b, md, 0, 0)| >= |a| && |OrFrom(a, b, md, 0, 0)| >= |b|
  {
    OrFromLength(a, b, md, 0, 0);
    AndFromLength(a, b, md, 0, 0);
  }

  /** Over two increasing lists, an offset both hold is kept by an AND round with `md == 0`. */
  lemma {:induction false} AndFromComplete(a: seq<int>, b: seq<int>, j: nat, k: nat, p: int, q: int)
    requires Increasing(a) && Increasing(b)
    requires j <= p < |a| && k <= q < |b| && a[p] == b[q]
    ensures a[p] in AndFrom(a, b, 0, j, k)
    decreases |a| - j + |b| - k
  {
    if Near(a[j], b[k], 0) {
      if p > j {
        assert q > k;
        AndFromComplete(a, b, j + 1, k + 1, p, q);
      }
    } else if a[j] < b[k] {
      assert p > j;
      AndFromComplete(a, b, j + 1, k, p, q);
    } else {
      assert q > k;
      AndFromComplete(a, b, j, k + 1, p, q);
    }
  }

  /** With `md == 0`, an AND round of increasing lists is `std::set_intersection`. */
  lemma {:induction false} AndRoundIsIntersection(a: seq<int>, b: seq<int>)
    requires Increasing(a) && Increasing(b)
    ensures AndFrom(a, b, 0, 0, 0) == AndOperation(a, b)
  {
    var r := AndFrom(a, b, 0, 0, 0);
    AndFromIncreasing(a, b, 0, 0, 0);
    forall z ensures z in r <==> z in a && z in b {
      if z in r {
        var p, q := AndFromWitness(a, b, 0, 0, 0, z);
      }
      if z in a && z in b {
        var p :| 0 <= p < |a| && a[p] == z;
        var q :| 0 <= q < |b| && b[q] == z;
        AndFromComplete(a, b, 0, 0, p, q);
      }
    }
    IncreasingUnique(r, AndOperation(a, b));
  }

  /** With `md == 0`, an OR round of increasing lists is `std::set_union`. */
  lemma {:induction false} OrRoundIsUnion(a: seq<int>, b: seq<int>)
    requires Increasing(a) && Increasing(b)
    ensures OrFrom(a, b, 0, 0, 0) == OrOperation(a, b)
  {
    var r := OrFrom(a, b, 0, 0, 0);
    OrFromIncreasing(a, b, 0, 0, 0);
    OrFromSource(a, b, 0, 0, 0);
    assert a[0..] == a && b[0..] == b;
    forall z ensures z in r <==> z in a || z in b {
      if z in a {
        var p :| 0 <= p < |a| && a[p] == z;
        var q := OrKeepsLeft(a, b, 0, 0, 0, p);
      }
      if z in b {
        var q :| 0 <= q < |b| && b[q] == z;
        var p := OrKeepsRight(a, b, 0, 0, 0, q);
      }
    }
    IncreasingUnique(r, OrOperation(a, b));
  }

  /** The fold of strictly increasing lists is strictly increasing (for OR, when `md >= 0`). */
  lemma {:induction false} FoldIncreasing(kind: GroupType, lists: seq<seq<int>>, md: int)
    requires |lists| > 0 && forall i :: 0 <= i < |lists| ==> Increasing(lists[i])
    requires kind == And || md >= 0
    ensures Increasing(Fold(kind, lists, md))
    decreases |lists|
  {
    if |lists| > 1 {
      var init := lists[..|lists| - 1];
      FoldIncreasing(kind, init, md);
      if kind == And {
        AndFromIncreasing(Fold(kind, init, md), lists[|lists| - 1], md, 0, 0);
      } else {
        OrFromIncreasing(Fold(kind, init, md), lists[|lists| - 1], md, 0, 0);
      }
    }
  }

  /** Every offset the fold yields is in one of the lists; `i` names one. */
  lemma {:induction false} FoldSource(kind: GroupType, lists: seq<seq<int>>, md: int, z: int) returns (i: int)
    requires |lists| > 0 && z in Fold(kind, lists, md)
    ensures 0 <= i < |lists| && z in lists[i]
    decreases |lists|
  {
    if |lists| == 1 {
      i := 0;
    } else {
      var init, last := lists[..|lists| - 1], lists[|lists| - 1];
      var prev := Fold(kind, init, md);
      if kind == And {
        var p, q := AndFromWitness(prev, last, md, 0, 0, z);
        if z == prev[p] {
          i := FoldSource(kind, init, md, z);
        } else {
          i := |lists| - 1;
        }
      } else {
        OrFromSource(prev, last, md, 0, 0);
        assert prev[0..] == prev && last[0..] == last;
        if z in prev {
          i := FoldSource(kind, init, md, z);
        } else {
          i := |lists| - 1;
        }
      }
    }
  }

  /** The AND fold is no longer than any of its lists. */
  lemma {:induction false} FoldAndShorter(lists: seq<seq<int>>, md: int, i: int)
    requires 0 <= i < |lists|
    ensures |Fold(And, lists, md)| <= |lists[i]|
    decreases |lists|
  {
    if |lists| > 1 {
      var init, last := lists[..|lists| - 1], lists[|lists| - 1];
      AndFromLength(Fold(And, init, md), last, md, 0, 0);
      if i < |lists| - 1 {
        FoldAndShorter(init, md, i);
      }
    }
  }

  /** The OR fold is at least as long as each of its lists. */
  lemma {:induction false} FoldOrLonger(lists: seq<seq<int>>, md: int, i: int)
    requires 0 <= i < |lists|
    ensures |Fold(Or, lists, md)| >= |lists[i]|
    decreases |lists|
  {
    if |lists| > 1 {
      var init, last := lists[..|lists| - 1], lists[|lists| - 1];
      OrRoundLongest(Fold(Or, init, md), last, md);
      if i < |lists| - 1 {
        FoldOrLonger(init, md, i);
      }
    }
  }

  /** One more list widens the AND fold's distance bound by `md`. */
  lemma {:induction false} BoundStep(k: nat, md: int)
    requires md >= 0
    ensures (k + 1) * md == k * md + md && k * md >= 0
  {
  }

  /** Closeness adds up along a chain of offsets. */
  lemma {:induction false} NearChain(x: int, y: int, z: int, d1: int, d2: int)
    requires Near(x, y, d1) && Near(y, z, d2)
    ensures Near(x, z, d1 + d2)
  {
  }

  /**
   * Each offset of the AND fold over `n` lists lies within `(n - 1) * md` of
   * an entry of every list; `y` is that entry of list `i`.
   */
  lemma {:induction false} FoldAndNear(lists: seq<seq<int>>, md: int, z: int, i: int) returns (y: int)
    requires 0 <= i < |lists| && z in Fold(And, lists, md)
    ensures y in lists[i] && Near(z, y, (|lists| - 1) * md)
    decreases |lists|
  {
    if |lists| == 1 {
      y := z;
    } else {
      var init, last := lists[..|lists| - 1], lists[|lists| - 1];
      var prev := Fold(And, init, md);
      var p, q := AndFromWitness(prev, last, md, 0, 0, z);
      BoundStep(|lists| - 2, md);
      var d := (|lists| - 2) * md;
      if i == |lists| - 1 {
        y := last[q];
        NearChain(z, z, y, d, md);
      } else {
        y := FoldAndNear(init, md, prev[p], i);
        NearChain(z, prev[p], y, md, d);
      }
    }
  }

  /**
   * Over a suffix array of a non-negative text, with words free of NUL,
   * `grouped_match` returns strictly increasing offsets (for OR, when
   * `md >= 0`): every offset of the text for an empty group, and otherwise
   * only offsets at which one of the words occurs.
   */
  lemma {:induction false} GroupedMatchSound(str: seq<int>, sa: seq<int>, kind: GroupType, words: seq<seq<int>>, md: int)
    requires IsSuffixArray(str, sa) && NonNegative(str)
    requires forall i :: 0 <= i < |words| ==> NoNul(words[i])
    requires kind == And || md >= 0
    ensures var r := GroupedMatchSpec(str, sa, kind, words, md);
      Increasing(r) &&
      (words == [] ==> forall z :: z in r <==> 0 <= z < |str|) &&
      (words != [] ==> forall z :: z in r ==> exists i :: 0 <= i < |words| && OccursAt(str, words[i], z))
  {
    if words == [] {
      RangeMembers(|str|);
    } else {
      var lists := Matches(str, sa, words);
      forall i | 0 <= i < |words| ensures Increasing(lists[i]) {
        SaMatchSound(str, sa, words[i]);
      }
      FoldIncreasing(kind, lists, md);
      forall z | z in Fold(kind, lists, md)
        ensures exists i :: 0 <= i < |words| && OccursAt(str, words[i], z)
      {
        var i := FoldSource(kind, lists, md, z);
        SaMatchSound(str, sa, words[i]);
      }
    }
  }

  /**
   * An offset returned for an AND group of `n` words lies within
   * `(n - 1) * md` of an occurrence of each word; `y` is that occurrence.
   */
  lemma {:induction false} GroupedMatchAndNear(str: seq<int>, sa: seq<int>, words: seq<seq<int>>, md: int, z: int, i: int)
      returns (y: int)
    requires IsSuffixArray(str, sa) && NonNegative(str)
    requires forall w :: 0 <= w < |words| ==> NoNul(words[w])
    requires 0 <= i < |words| && z in GroupedMatchSpec(str, sa, And, words, md)
    ensures OccursAt(str, words[i], y) && Near(z, y, (|words| - 1) * md)
  {
    var lists := Matches(str, sa, words);
    assert z in Fold(And, lists, md);
    y := FoldAndNear(lists, md, z, i);
    assert y in SaMatchSpec(str, sa, words[i]);
    SaMatchSound(str, sa, words[i]);
  }

  /**
   * Two words whose occurrence lists are `near` and `far`: with
   * `max_distance` 7, offset 5 merges with 10 and survives as `min(5, 10)`,
   * but finds no partner at 20 and is dropped.
   */
  lemma {:induction false} AndFoldWindow(near: seq<seq<int>>, far: seq<seq<int>>)
    requires near == [[5], [10]] && far == [[5], [20]]
    ensures Fold(And, near, 7) == [5]
    ensures Fold(And, far, 7) == []
  {
    assert near[..1] == [[5]] && far[..1] == [[5]];
    assert AndFrom([5], [10], 7, 0, 0) == [5] + AndFrom([5], [10], 7, 1, 1);
    assert AndFrom([5], [20], 7, 0, 0) == AndFrom([5], [20], 7, 1, 0);
  }
}
