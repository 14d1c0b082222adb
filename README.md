# SA-Phrase-Search in Dafny

A model of the core of SA-Phrase-Search. This is a phrase-search engine over a text held in memory. It has two lineages.

The first lineage (namespace `sa_phrase_search`) has four parts:
- a suffix-array builder (`SuffixArray`: S/L types, LMS positions, character buckets, one induced-sorting pass, Kasai's LCP algorithm);
- a binary-search matcher (`SAMatcher`);
- an algebra of sorted occurrence lists (AND, OR, NOT, proximity, n-ary folds);
- a query tokenizer and recursive-descent parser for `_AND_`, `_OR_`, `_NOT_` and parentheses.

The second lineage (namespace `sa_ps`) has a second matcher, `sa_match`, and word groups. `grouped_match` folds the words' occurrence lists with a distance-aware two-pointer merge.

One Dafny module per source file:

| module | file | source |
|---|---|---|
| `SaIs` | sa_is.dfy | include/sa_is.hpp |
| `SaMatch` | sa_match.dfy | include/sa_match.hpp |
| `AndOr` | andor.dfy | include/andor.hpp |
| `Parser` | parser.dfy | include/parser.hpp |
| `SaPsMatch` | sa_ps_match.dfy | include/sa-match.hpp |
| `GroupedData` | grouped_data.dfy | include/grouped-data.hpp |
| `Sorting` | sorting.dfy | `std::sort` and `std::iota`, specified by their results |
| `Suffixes` | suffixes.dfy | lexicographic order, suffix arrays, common prefixes |
| `Wrappers` | wrappers.dfy | `Option` |

Modelling choices:
- Characters are `int` (code points) on the suffix-array side. The parser works on `string`.
- `isspace(static_cast<unsigned char>(c))` is modelled as the C-locale set on the low byte: `c % 256` is one of 9–13 or 32.
- Code that writes vectors in place becomes methods over `array`s (types, buckets, LMS placement, the induction passes). The same goes for code whose loops update local variables (binary searches, merges, Kasai's scan, the tokenizer). Each such method is proved against a function that specifies it, with these exceptions. `InduceL`, `InduceS` and `BuildSais` are proved only local facts (see Left out). `KasaiScan` is tied to the LCP definition only when `sa` is a suffix array and `rank` its inverse; for other inputs it states only the length and bounds of its result.
- Objects whose fields change become classes:
  - `QueryParser` has `tokens` and `current`;
  - `grouped_data` becomes `Group`, with `kind` and `strs`;
  - `SuffixArray` has `text`, `sa`, `lcp` and `fault`.
- The matchers only read the text and the suffix array, so both are passed as parameters. Their correctness theorems assume `IsSuffixArray(text, sa)`: `sa` is a permutation of `0 .. n-1`, with suffixes in strictly increasing lexicographic order.
- In C++, an out-of-range vector index is undefined behaviour. Where the source performs one, the model raises a `fault` flag and stops.

How the model follows the code where the code departs from the documented design:
- **`buildSAIS` is one pass.** It has no renaming of LMS substrings, no recursion and no sentinel, so its output is in general not a suffix array. The model states only local facts about it. It adds a corrected builder; see Findings.
- **An empty word group matches everything.** `grouped_match` over an empty group returns every offset `0 .. n-1`. This is not the empty list that `multiAnd`/`multiOr` return for no lists.
- **An empty pattern in `sa_match` matches everything.** `sa_match` with an empty pattern over a non-empty text returns every offset. `SAMatcher::findAll` returns nothing for it.
- **A negative distance is not rejected.** `proximityAnd`, `orderedProximity` and `grouped_match` accept a negative maximum distance; with one, no pair is ever near.

## Model

| member | source | states |
|---|---|---|
| SaIs.ComputeTypes | include/sa_is.hpp:29-42 | the filled vector is `Types(s)`: the last position is S; otherwise a rise gives S, a fall gives L, and a repeat copies the right neighbour's type |
| SaIs.LTypeMeaning | include/sa_is.hpp:29-42 | position `i` is L exactly when its run of equal code points ends in a smaller code point (both directions) |
| SaIs.RunEndIsL | include/sa_is.hpp:33-41 | a run of equal code points that ends in a smaller one is L-type |
| SaIs.LTypeSuffix | include/sa_is.hpp:29-42 | at an L-type position the next suffix is lexicographically smaller |
| SaIs.STypeSuffix | include/sa_is.hpp:29-42 | at an S-type position that is not in the final run, the next suffix is larger |
| SaIs.FinalRunIsS | include/sa_is.hpp:31 | the forced S at `n-1` differs from suffix order: for `[c, c]`, position 0 is S although its suffix is the larger one |
| SaIs.LmsFollowsFall | include/sa_is.hpp:77-80 | an LMS position is not 0 and follows a fall in code point |
| SaIs.SortedHasNoL | include/sa_is.hpp:29-42 | a text whose code points never fall has no L-type position |
| SaIs.LmsAfter | include/sa_is.hpp:77-80 | every L-type position has an LMS position somewhere to its right |
| SaIs.NoLmsIffSorted | include/sa_is.hpp:77-80 | a text has no LMS position exactly when its code points never fall |
| SaIs.Fall | include/sa_is.hpp:33-41 | between two positions where the code point drops, some adjacent pair falls, and that position is L-type |
| SaIs.BelowNext | include/sa_is.hpp:106-111 | bucket `c` ends where bucket `c+1` starts: its start plus its count |
| SaIs.BelowMonotone | include/sa_is.hpp:106-111 | bucket starts never decrease with the code point |
| SaIs.BucketsSpan | include/sa_is.hpp:98-111 | the first bucket starts at 0 and the last one ends at `n` |
| SaIs.BucketOf | include/sa_is.hpp:98-111 | every slot `0 .. n-1` lies in the bucket of exactly one code point below the alphabet size |
| SaIs.Buckets | include/sa_is.hpp:98-111 | `bucket_starts[c]` is the number of code points below `c`; `bucket_ends[c]` adds the count of `c` |
| SaIs.BucketsDisjoint | include/sa_is.hpp:98-111 | different buckets do not overlap |
| SaIs.LmsFromMeaning | include/sa_is.hpp:52-57 | `LmsFrom` lists exactly the LMS positions with a given code point, once each, ascending |
| SaIs.LmsFromFits | include/sa_is.hpp:52-57 | a bucket has room for all of its LMS positions |
| SaIs.SortedLmsEmpty | include/sa_is.hpp:52-57 | a text that never falls has no LMS position to place |
| SaIs.PlaceLms | include/sa_is.hpp:49-57 | after the fill and the LMS loop, every bucket holds its LMS positions in its top slots, ascending, and -1 below them |
| SaIs.PlaceOne | include/sa_is.hpp:54-55 | one placement decrements the bucket's tail and puts the position in the freed slot, keeping `Placed` |
| SaIs.PlaceTops | include/sa_is.hpp:55 | placing LMS position `i` lowers the top of its own bucket by one, stays inside the bucket, and leaves other buckets alone |
| SaIs.PlaceStep | include/sa_is.hpp:55 | writing `i` at its bucket's new top turns the placement state for `i+1` into the one for `i` |
| SaIs.SortedPlacesNothing | include/sa_is.hpp:49-57 | for a text that never falls, every slot is still -1 after the LMS loop |
| SaIs.PlacedEntries | include/sa_is.hpp:49-57 | after the LMS loop, every slot is -1 or an LMS position of the text |
| SaIs.InduceL | include/sa_is.hpp:59-65 | the L pass keeps every slot -1 or an offset. A slot it changes holds an L-type offset. From all-empty slots it changes nothing and does not fault |
| SaIs.InduceS | include/sa_is.hpp:67-73 | the S pass keeps every slot -1 or an offset. A slot it changes holds an S-type offset. From all-empty slots it changes nothing and does not fault |
| SaIs.BuildSais | include/sa_is.hpp:83-115 | `n == 1` gives `[0]`. Every slot ends -1 or an offset. A text of two or more code points that never falls leaves every slot at -1 |
| SaIs.AbHasNoLms | include/sa_is.hpp:77-115 | `"ab"` has two code points, never falls and has no LMS position |
| SaIs.MaxChar | include/sa_is.hpp:152-159 | the maximum starts at 0 and bounds every code point, so `max_char + 1` is a valid alphabet size |
| SaIs.CommonPrefixExtend | include/sa_is.hpp:132-134 | the matching loop may step past `h` exactly when both suffixes agree at `h` |
| SaIs.KasaiNext | include/sa_is.hpp:136 | dropping the first character of two ordered suffixes with a common prefix keeps their order and shortens the prefix by one |
| SaIs.RankInverse | include/sa_is.hpp:121-126 | `rank[sa[i]] = i` over a permutation gives its inverse |
| SaIs.KasaiPred | include/sa_is.hpp:130-131 | the predecessor slot `sa[rank[i]-1]` shares at least as long a prefix with suffix `i` as any smaller suffix does |
| SaIs.KasaiFirst | include/sa_is.hpp:130 | the suffix at rank 0 has no smaller suffix, so `h` carried past it is 0 |
| SaIs.KasaiStore | include/sa_is.hpp:135 | storing `h` at `rank[i]` fills that LCP slot correctly and keeps the others |
| SaIs.KasaiStart | include/sa_is.hpp:128-129 | the scan's invariant holds with `h == 0` before the first position |
| SaIs.KasaiAdvance | include/sa_is.hpp:130-137 | one step with a predecessor keeps the invariant, with `h` decremented |
| SaIs.KasaiSkip | include/sa_is.hpp:130 | skipping rank 0 keeps the invariant, and `h` is 0 there |
| SaIs.KasaiEnd | include/sa_is.hpp:129-138 | after the scan the array is the LCP array of the suffix array |
| SaIs.RankOf | include/sa_is.hpp:121-126 | faults exactly when a slot is outside `0 .. n-1`. Otherwise every rank is in range, and over a permutation the ranks invert it |
| SaIs.MatchLength | include/sa_is.hpp:132-134 | started at or below the common prefix, the loop stops at exactly the common prefix, within `[h0, n]` |
| SaIs.KasaiScan | include/sa_is.hpp:128-138 | the array has length `n`, slot 0 holds 0 and every slot is in `[0, n]`. Over a suffix array with its inverse, it is the LCP array |
| SaIs.ComputeLcp | include/sa_is.hpp:118-139 | faults exactly when a slot is out of range. Otherwise length `n`, `lcp[0] == 0`, entries in `[0, n]`. Over a suffix array it never faults and gives the LCP array |
| SaIs.InsertOffset | include/sa_is.hpp:83-115 | inserting the next offset anywhere keeps a permutation (corrected builder) |
| SaIs.InsertSuffix | include/sa_is.hpp:83-115 | inserting a suffix between its ordered neighbours keeps the prefix sorted (corrected builder) |
| SaIs.SortSuffixes | include/sa_is.hpp:83-115 | the corrected builder returns a suffix array of any text |
| SaIs.SuffixArray.constructor | include/sa_is.hpp:147-163 | stores the text. `n == 0` gives empty `sa` and `lcp`; `n == 1` gives `[0]` and `[0]`. Every text of two or more code points that never falls faults. Without a fault, `sa` holds offsets, `lcp[0] == 0`, every height is in `[0, n]`, and if `sa` is a suffix array then `lcp` is its LCP array |
| SaIs.SuffixArray.Corrected | include/sa_is.hpp:147-163 | with the corrected builder: never faults, `sa` is a suffix array and `lcp` its LCP array, of length `n`, with `lcp[0] == 0` and every height in `[0, n]` |
| Sorting.RangeMembers | include/grouped-data.hpp:63-67 | `iota` over `0 .. n-1` is strictly increasing and holds exactly those offsets |
| Sorting.Insert | include/sa_match.hpp:110 | one insertion step of the sort keeps the multiset and adds `x` |
| Sorting.InsertSorted | include/sa_match.hpp:110 | inserting into a sorted list keeps it sorted |
| Sorting.Sort | include/sa_match.hpp:110 | `std::sort`: a sorted permutation of its input |
| Sorting.SortDistinct | include/sa-match.hpp:43 | sorting distinct offsets gives a strictly increasing list |
| Sorting.IncreasingUnique | include/andor.hpp:29-78 | two strictly increasing lists with the same members are equal; a set merge is determined by its members |
| Suffixes.LexTransitive | include/sa_match.hpp:27-43 | lexicographic order is transitive |
| Suffixes.LexTotal | include/sa_match.hpp:27-43 | different sequences are ordered one way or the other |
| Suffixes.CommonPrefixSandwich | include/sa_is.hpp:128-138 | of three ordered suffixes, the middle one shares at least as long a prefix with the largest as the smallest does |
| Suffixes.SortPermutation | include/sa-match.hpp:43 | a permutation of `0 .. n-1`, sorted, is `0 .. n-1` |
| SaMatch.PatternCompareFirstDifference | include/sa_match.hpp:27-43 | the result is 0 when the pattern is a prefix, 1 when the suffix ends first, otherwise the sign of the first differing code point |
| SaMatch.PatternCompareZero | include/sa_match.hpp:27-43 | the result is 0 exactly when the pattern is a prefix of the suffix |
| SaMatch.PatternCompareMonotone | include/sa_match.hpp:27-43 | a larger suffix never compares higher against the same pattern |
| SaMatch.SuffixArrayCompareSorted | include/sa_match.hpp:46-79 | over a suffix array, the comparison is non-increasing along the slots |
| SaMatch.ComparePattern | include/sa_match.hpp:27-43 | the loop returns `PatternCompare` of the pattern and the suffix |
| SaMatch.FindLeft | include/sa_match.hpp:46-61 | for any `sa`, the result is `LeftBound`, the bisection on `comparison > 0` written as a function, and lies in `[0, n]`. When the comparisons are sorted, it is the first slot with comparison `<= 0` |
| SaMatch.FindRight | include/sa_match.hpp:64-79 | for any `sa`, the result is `RightBound`, the bisection on `comparison >= 0` written as a function, and lies in `[0, n]`. When the comparisons are sorted, it is the first slot with comparison `< 0` |
| SaMatch.CompareSlot | include/sa_match.hpp:53 | the comparison at slot `mid` is entry `mid` of the comparison list along `sa` |
| SaMatch.Narrow | include/sa_match.hpp:51-58 | one step of either loop (`> 0` for `findLeft`, `>= 0` for `findRight`) shrinks the range `[left, right)` and leaves the bisection's final result unchanged |
| SaMatch.SearchFindsSplit | include/sa_match.hpp:46-79 | when the comparisons are at least the threshold before slot `b` and below it from `b` on, the bisection over any range containing `b` returns `b` |
| SaMatch.FirstBelowSplits | include/sa_match.hpp:46-79 | non-increasing comparisons split at the first slot below the threshold |
| SaMatch.ComparisonsSorted | include/sa_match.hpp:46-79 | when the comparisons along `sa` are sorted, the comparison list is non-increasing |
| SaMatch.SearchSorted | include/sa_match.hpp:46-79 | when the comparisons along `sa` are sorted, slots before the bisection's result compare at or above the threshold and the rest below. With threshold 1 this is `findLeft` (first slot not above the pattern), with 0 `findRight` (first slot below it) |
| SaMatch.ZeroIffOccurs | include/sa_match.hpp:27-43 | at a valid offset the comparison is 0 exactly at an occurrence |
| SaMatch.BoundsAreOccurrences | include/sa_match.hpp:89-113 | over a suffix array, `left <= right`, and slots `left .. right-1` hold exactly the occurrences, once each |
| SaMatch.FindAll | include/sa_match.hpp:94-113 | empty pattern or text gives `[]`. Otherwise, for any `sa`, the result is the sorted slots from `LeftBound` to `RightBound`, or `[]` when that range is empty; it is sorted and drawn from `sa`. Over a suffix array, it is strictly increasing, holds exactly the occurrences, and its length is their number |
| SaMatch.CopySlots | include/sa_match.hpp:105-107 | copies slots `left .. right-1` in slot order, or nothing |
| SaMatch.SortedBoundsAreOccurrences | include/sa_match.hpp:105-112 | the sorted slots between the bounds are the occurrences, ascending, as many as there are |
| SaMatch.OccurrenceCount | include/sa_match.hpp:138-147 | a repeat-free list with the occurrences as members has their number as length, so `findAll` and `count` agree |
| SaMatch.BoundsNonEmpty | include/sa_match.hpp:121-130 | over a suffix array, the bounded slots are non-empty exactly when the pattern occurs |
| SaMatch.Exists | include/sa_match.hpp:121-130 | false for an empty pattern or text. Otherwise, for any `sa`, true exactly when `LeftBound < RightBound`, so it agrees with `count > 0` and a non-empty `findAll`. Over a suffix array, true exactly when the pattern occurs |
| SaMatch.Count | include/sa_match.hpp:138-147 | 0 for an empty pattern or text. Otherwise, for any `sa`, `RightBound - LeftBound`. Over a suffix array, the number of occurrences |
| SaMatch.FindAllString | include/sa_match.hpp:154-156 | the string overload has the contract of `FindAll` for the whole pattern: the sorted bounded slots for any `sa`, drawn from `sa`, and the occurrences over a suffix array |
| SaMatch.FindAllAscending | include/sa_match.hpp:154-156 | over a suffix array, `findAll` of a non-empty pattern equals any strictly increasing list whose members are exactly the occurrences |
| SaMatch.ExistsString | include/sa_match.hpp:163-165 | the string overload has the contract of `Exists` for the whole pattern |
| SaMatch.CountString | include/sa_match.hpp:172-174 | the string overload has the contract of `Count` for the whole pattern |
| SaMatch.BananaSuffixArray | tests/test_basic.cpp:14-31 | `[5,3,1,0,4,2]` is the suffix array of `"banana"` |
| SaMatch.BananaOccurrences | tests/test_basic.cpp:19-31 | in `"banana"`, `"ana"` occurs at `{1,3}`, `"na"` twice, `"ba"` at `{0}`, `"xyz"` nowhere |
| SaMatch.SentenceSaPermutation | tests/test_basic.cpp:108-120 | the slot list of the CJK sentence is a permutation of its offsets |
| SaMatch.SentenceSuffixArray | tests/test_basic.cpp:108-120 | that slot list is the suffix array of the CJK sentence |
| SaMatch.RomeoOccurrences | tests/test_basic.cpp:115-120 | the CJK pattern occurs at exactly `{0, 8}` |
| SaMatch.BananaSearch | tests/test_basic.cpp:14-22 | `findAll("ana")` on `"banana"` returns `[1, 3]` |
| SaMatch.BananaCounts | tests/test_basic.cpp:24-27 | `count` of `"na"`, `"ba"` and `"xyz"` on `"banana"` is 2, 1 and 0 |
| SaMatch.BananaExists | tests/test_basic.cpp:29-31 | `exists("ana")` is true and `exists("xyz")` is false on `"banana"` |
| SaMatch.RomeoSearch | tests/test_basic.cpp:115-120 | `findAll` of the CJK pattern returns `[0, 8]` |
| AndOr.AndOperation | include/andor.hpp:29-38 | every output is in both inputs and no longer than either. On strictly increasing inputs, the output is the strictly increasing intersection |
| AndOr.OrOperation | include/andor.hpp:49-58 | the output holds exactly the members of either input, at most `|a|+|b|` of them, strictly increasing when the inputs are |
| AndOr.NotOperation | include/andor.hpp:69-78 | every output is in `a`. On strictly increasing inputs, exactly the members of `a` absent from `b`, strictly increasing |
| AndOr.AndCommutative | include/andor.hpp:29-38 | intersection does not depend on argument order |
| AndOr.OrCommutative | include/andor.hpp:49-58 | union does not depend on argument order |
| AndOr.AndIdempotent | include/andor.hpp:29-38 | `a AND a == a` |
| AndOr.OrIdempotent | include/andor.hpp:49-58 | `a OR a == a` |
| AndOr.NotSelfEmpty | include/andor.hpp:69-78 | `a NOT a` is empty |
| AndOr.AndDistributesOverOr | include/andor.hpp:29-58 | `a AND (b OR c) == (a AND b) OR (a AND c)` |
| AndOr.AndExample | tests/test_basic.cpp:56-59 | `[1,3,5,7,9] AND [2,3,5,8,10] == [3,5]` |
| AndOr.OrExample | tests/test_basic.cpp:62-63 | the same inputs OR to the eight offsets `[1,2,3,5,7,8,9,10]` |
| AndOr.NotExample | tests/test_basic.cpp:66-70 | the same inputs NOT to `[1,7,9]` |
| AndOr.KeepNearMembers | include/andor.hpp:91-114 | `KeepNear` keeps exactly the members of `a` with a `b` element within the distance, in `a`'s order |
| AndOr.KeepFollowedMembers | include/andor.hpp:127-149 | `KeepFollowed` keeps exactly the members `x` of `a` with a `b` element in `[x+len, x+len+d]`, in `a`'s order |
| AndOr.ProximityAnd | include/andor.hpp:91-114 | never emits a value outside `a`. On sorted inputs, the two-pointer sweep returns exactly `KeepNear(a, b, d)` |
| AndOr.OrderedProximity | include/andor.hpp:127-149 | never emits a value outside `a`. On sorted inputs, returns exactly `KeepFollowed(a, b, len, d)`; the default `d == 0` asks `b` to start where `a` ends |
| AndOr.AndStep | include/andor.hpp:162-164 | one fold step keeps exactly the offsets common to one more list |
| AndOr.MultiAnd | include/andor.hpp:156-167 | `[]` for no lists; otherwise the left fold of AND. On strictly increasing lists, exactly the offsets in every list |
| AndOr.MultiOr | include/andor.hpp:174-185 | `[]` for no lists; otherwise the left fold of OR, holding exactly the offsets in some list, strictly increasing when the lists are |
| Parser.UpperAll | include/parser.hpp:115-120 | each code unit is upper-cased in place, and the length is kept |
| Parser.NextToken | include/parser.hpp:96-155 | every token read consumes at least one code unit and is never END |
| Parser.QueryParser.constructor | include/parser.hpp:231 | a new parser has no tokens and position 0 |
| Parser.QueryParser.StartsWithIgnoreCase | include/parser.hpp:70-83 | true exactly when `prefix` fits in `str` and agrees with it up to ASCII case |
| Parser.QueryParser.Tokenize | include/parser.hpp:86-158 | the token list becomes `Lex(query)`, and the position is unchanged |
| Parser.QueryParser.ParseOr | include/parser.hpp:161-178 | result and new position are those of the OR rule from the old position; tokens unchanged |
| Parser.QueryParser.ParseAnd | include/parser.hpp:180-193 | result and new position are those of the AND rule |
| Parser.QueryParser.ParseNot | include/parser.hpp:195-205 | result and new position are those of the NOT rule |
| Parser.QueryParser.ParsePrimary | include/parser.hpp:207-228 | result and new position are those of the primary rule |
| Parser.QueryParser.Parse | include/parser.hpp:238-242 | tokenizes the query, returns `ParseQuery(query)`, and leaves `current` at the position where the grammar stops, `OrExpr(Lex(query), 0).pos` |
| Parser.QueryParser.ExtractWords | include/parser.hpp:249-260 | returns the WORD values of `Lex(query)`, in order, stores those tokens, and leaves `current` unchanged |
| Parser.ReadToken | include/parser.hpp:96-155 | one iteration of the tokenizer's loop reads `NextToken` |
| Parser.ReadUnderscored | include/parser.hpp:99-133 | the operator text runs to the next `_` or the end; a closing `_` is consumed if present; the token is the keyword or a WORD with the underscores |
| Parser.SkipSpaces | include/parser.hpp:92-94 | stops at a non-blank or the end, and skipping does not change the tokens that follow |
| Parser.ReadOperator | include/parser.hpp:105-108 | reads up to the next `_` or the end |
| Parser.UpperCase | include/parser.hpp:115-120 | upper-cases ASCII letters |
| Parser.ReadWord | include/parser.hpp:144-154 | reads up to the first blank, parenthesis or `_` |
| Parser.LexEnd | include/parser.hpp:86-158 | the token list ends with exactly one END and has none elsewhere |
| Parser.WordEndFacts | include/parser.hpp:144-154 | every code unit of a plain word is a word character |
| Parser.NextWord | include/parser.hpp:128-154 | a WORD token is non-empty; unless it starts with `_`, it holds no blank, parenthesis or `_` |
| Parser.LexWords | include/parser.hpp:86-158 | the same for every WORD token of a query |
| Parser.LexFromSuffix | include/parser.hpp:86-158 | tokenizing depends only on the text from the current offset on |
| Parser.LexShift | include/parser.hpp:86-158 | tokenizing after a prefix equals tokenizing the rest alone |
| Parser.UnderscoreClosed | include/parser.hpp:99-133 | `_op_` followed by anything is one operator token, then the rest |
| Parser.UnderscoreOpen | include/parser.hpp:110-112 | `_op` with no closing `_` at the end of the query still yields its token |
| Parser.KeywordAnyCase | include/parser.hpp:115-127 | `_and_`, `_Or_`, `_NOT_` in any ASCII case give AND/OR/NOT, closed or not |
| Parser.UnderscoreWord | include/parser.hpp:128-131 | underscore text that is not a keyword is a WORD that keeps its underscores |
| Parser.PlainWord | include/parser.hpp:144-154 | a run of word characters is one WORD token |
| Parser.Spaces | include/parser.hpp:92-94 | leading blanks produce no token |
| Parser.WordThenBlank | include/parser.hpp:92-154 | a word then a blank is one WORD, then the tokens of the rest |
| Parser.KeywordThenBlank | include/parser.hpp:92-133 | a keyword then a blank is one operator, then the tokens of the rest |
| Parser.WordsOfAppend | include/parser.hpp:249-260 | word extraction distributes over concatenated token lists |
| Parser.WordOpWord | include/parser.hpp:86-158 | `w1 _op_ w2` lexes to WORD, operator, WORD, END and extracts `[w1, w2]` |
| Parser.ExtractRomeoAndJuliet | tests/test_basic.cpp:86-89 | `"Romeo _AND_ Juliet"` gives `["Romeo","Juliet"]` |
| Parser.ExtractLoveOrHate | tests/test_basic.cpp:92-95 | `"love _OR_ hate"` gives `["love","hate"]` |
| Parser.ExtractThreeWords | tests/test_basic.cpp:98-99 | `"Romeo _AND_ Juliet _OR_ love"` gives three words |
| Parser.ExtractPlainWords | include/parser.hpp:249-260 | a query of plain words separated by single blanks extracts exactly those words, in order |
| Parser.PrintParses | include/parser.hpp:195-228 | a fully parenthesised tree parses back from any position as one NOT-level expression |
| Parser.InnerParses | include/parser.hpp:165-228 | followed by `)` or END, such a tree parses back as a whole OR expression |
| Parser.ParsePrint | include/parser.hpp:161-228 | parsing the printed form of any tree returns that tree and stops at END |
| Parser.AndBindsTighter | include/parser.hpp:165-193 | `a OR b AND c` parses as `OR(a, AND(b, c))` |
| Parser.AndGroupsLeft | include/parser.hpp:180-193 | `a AND b AND c` parses as `AND(AND(a, b), c)` |
| Parser.OrGroupsLeft | include/parser.hpp:165-178 | `a OR b OR c` parses as `OR(OR(a, b), c)` |
| Parser.NotTakesPrimary | include/parser.hpp:195-205 | `NOT a AND b` parses as `AND(NOT(a), b)` |
| Parser.DoubleNot | include/parser.hpp:195-205 | `NOT NOT a` is `NOT(null)`: NOT takes a primary, and NOT is not one |
| Parser.TrailingIgnored | include/parser.hpp:238-242 | tokens left after the expression are ignored |
| Parser.MissingParen | include/parser.hpp:215-222 | a missing `)` is tolerated |
| Parser.EmptyQuery | include/parser.hpp:207-228 | the empty query lexes to `[END]` and parses to null |
| Parser.ParseLoveOrRomeoAndJuliet | include/parser.hpp:161-242 | `"love _OR_ Romeo _AND_ Juliet"` parses to `OR(love, AND(Romeo, Juliet))` |
| SaPsMatch.TraitsCompareSign | include/sa-match.hpp:24 | `compare` is 0 exactly on equal buffers and negative exactly when the first is lexicographically smaller |
| SaPsMatch.CompareAt | include/sa-match.hpp:24 | slot `i` of the comparison list is the comparison of suffix `sa[i]`'s window with the pattern |
| SaPsMatch.Bin | include/sa-match.hpp:20-36 | the `bin` loop computes `Bisect` over the slots' comparisons |
| SaPsMatch.BisectRange | include/sa-match.hpp:20-36 | a search returns its current answer or a matching slot between its bounds |
| SaPsMatch.BisectOrdered | include/sa-match.hpp:20-38 | on any slot array, `bin(true)` and `bin(false)` agree on failure, and the first is never right of the second |
| SaPsMatch.BisectBounds | include/sa-match.hpp:20-38 | either both searches return -1 or `0 <= ansl <= ansr < n` |
| SaPsMatch.SignRuns | include/sa-match.hpp:20-36 | sorted comparisons are a run of negatives, then zeros, then positives |
| SaPsMatch.BisectFirst | include/sa-match.hpp:20-36 | on sorted comparisons, `bin(true)` returns the first matching slot, or -1 if none matches |
| SaPsMatch.BisectLast | include/sa-match.hpp:20-36 | on sorted comparisons, `bin(false)` returns the last matching slot, or -1 |
| SaPsMatch.MatchSlice | include/sa-match.hpp:20-38 | on sorted comparisons, the matching slots are exactly `ansl .. ansr` |
| SaPsMatch.SortedSlice | include/sa-match.hpp:39-43 | the answer vector is sorted and holds the entries of `sa[ansl..ansr]`, or nothing for -1 |
| SaPsMatch.MatchedSlotsShape | include/sa-match.hpp:37-43 | the answer is the sorted slice between the two searches |
| SaPsMatch.MatchedSlotsFromSa | include/sa-match.hpp:39-42 | every returned offset is an entry of one of the searched slots |
| SaPsMatch.SaMatchSpec | include/sa-match.hpp:11-45 | a longer pattern gives `[]`. An equal-length one gives `[0]` if equal to the text, else `[]`. The result is sorted |
| SaPsMatch.SaMatch | include/sa-match.hpp:11-45 | the method computes `SaMatchSpec` |
| SaPsMatch.CollectSorted | include/sa-match.hpp:39-43 | copies the `ansr - ansl + 1` entries from `sa[ansl]` and sorts them |
| SaPsMatch.WindowOccurs | include/sa-match.hpp:24 | for a NUL-free pattern, the window read at `pos` equals the pattern exactly at an occurrence, even where it runs into the terminator |
| SaPsMatch.PastEndLeast | include/sa-match.hpp:24 | a window at or past the terminator is all NUL and not above any window of a non-negative text |
| SaPsMatch.WindowMonotone | include/sa-match.hpp:24 | windows of ordered suffixes stay ordered, or become equal |
| SaPsMatch.CompareMonotone | include/sa-match.hpp:24 | a smaller window never compares higher against the pattern |
| SaPsMatch.SuffixArrayCompareSorted | include/sa-match.hpp:20-36 | over a suffix array of a non-negative text, the comparisons are sorted along the slots |
| SaPsMatch.MatchedSlotsExact | include/sa-match.hpp:37-43 | over a permutation, the answer is strictly increasing and holds `sa[i]` exactly when slot `i` matches |
| SaPsMatch.SortedSliceExact | include/sa-match.hpp:39-43 | over a permutation, the sorted slice is strictly increasing and holds `sa[i]` exactly when `i` is in the slice |
| SaPsMatch.SlotMatchesOccurrence | include/sa-match.hpp:24 | a slot compares 0 exactly when the pattern occurs at its offset |
| SaPsMatch.SaMatchExact | include/sa-match.hpp:11-45 | over a suffix array of a non-negative text, a non-empty NUL-free pattern gives exactly its occurrences, ascending |
| SaPsMatch.SaMatchExactShorter | include/sa-match.hpp:17-45 | the same, for the binary-search case of a pattern shorter than the text |
| SaPsMatch.AllSlotsMatch | include/sa-match.hpp:20-43 | when every slot compares 0, the answer is all of `sa`, sorted |
| SaPsMatch.SaMatchEmptyPattern | include/sa-match.hpp:24-43 | an empty pattern over a non-empty text gives every offset `0 .. n-1` |
| SaPsMatch.SaMatchSound | include/sa-match.hpp:11-45 | over a suffix array, every returned offset is an occurrence, ascending, for any NUL-free pattern |
| GroupedData.Group.constructor | include/grouped-data.hpp:17-23 | a group holds its type and its words |
| GroupedData.Group.Append | include/grouped-data.hpp:28-31 | `&=` / `|=` append the word in place and keep the earlier words |
| GroupedData.Pair | include/grouped-data.hpp:25-27 | `s1 & s2` (and `s1 | s2`) is a new group of that type with words `[s1, s2]` |
| GroupedData.Extended | include/grouped-data.hpp:32-36 | `g & s` is a new group with `s` appended; `g` is unchanged |
| GroupedData.ExtendedLeft | include/grouped-data.hpp:37-41 | `s & g` also appends `s` at the end, not the front; `g` is unchanged |
| GroupedData.MatchesExact | include/grouped-data.hpp:68-71 | over a suffix array, `fevery` has one entry per word, and the entry of a non-empty NUL-free word is the increasing list of its occurrences |
| GroupedData.GroupedMatchSpec | include/grouped-data.hpp:61-132 | no words give every offset `0 .. n-1`; one word gives its `sa_match` list unchanged |
| GroupedData.MergeAnd | include/grouped-data.hpp:76-86 | the AND merge loop computes `AndFrom` from both starts |
| GroupedData.MergeOr | include/grouped-data.hpp:107-127 | the OR merge loop and its tail copies compute `OrFrom` from both starts |
| GroupedData.CopyRest | include/grouped-data.hpp:120-127 | the tail loops append what remains of both lists |
| GroupedData.Iota | include/grouped-data.hpp:63-67 | the result is `0 .. n-1` |
| GroupedData.MatchEach | include/grouped-data.hpp:68-71 | the loop collects every word's `sa_match` list |
| GroupedData.FoldRounds | include/grouped-data.hpp:74-89 | the rounds compute the left fold of the merge step |
| GroupedData.GroupedMatch | include/grouped-data.hpp:61-132 | both overloads compute `GroupedMatchSpec` for the group's type |
| GroupedData.AndFromLength | include/grouped-data.hpp:76-86 | an AND round is no longer than either input |
| GroupedData.AndFromWitness | include/grouped-data.hpp:76-86 | each AND output is `min(x, y)` of a pair with `|x-y| <= md`, taken from the inputs |
| GroupedData.AndFromIncreasing | include/grouped-data.hpp:76-86 | an AND round of strictly increasing inputs is strictly increasing |
| GroupedData.OrFromLength | include/grouped-data.hpp:107-127 | an OR round has length `|a| + |b|` minus the number of merged pairs |
| GroupedData.OrFromSource | include/grouped-data.hpp:107-127 | every OR output comes from one of the inputs |
| GroupedData.OrFromIncreasing | include/grouped-data.hpp:107-127 | with `md >= 0`, an OR round of strictly increasing inputs is strictly increasing |
| GroupedData.OrKeepsLeft | include/grouped-data.hpp:107-127 | an offset of the left list is in the output, or is covered by a smaller merged partner within `md` |
| GroupedData.OrKeepsRight | include/grouped-data.hpp:107-127 | the same for an offset of the right list |
| GroupedData.OrRoundLongest | include/grouped-data.hpp:105-130 | an OR round is at least as long as the longer input |
| GroupedData.AndFromComplete | include/grouped-data.hpp:76-86 | with `md == 0`, a value in both strictly increasing lists is kept |
| GroupedData.AndRoundIsIntersection | include/grouped-data.hpp:76-86 | with `md == 0`, an AND round is `andOperation` |
| GroupedData.OrRoundIsUnion | include/grouped-data.hpp:107-127 | with `md == 0`, an OR round is `orOperation` |
| GroupedData.FoldIncreasing | include/grouped-data.hpp:74-130 | folding strictly increasing lists gives a strictly increasing list (for OR with `md >= 0`) |
| GroupedData.FoldSource | include/grouped-data.hpp:74-130 | every offset of a fold comes from one of the lists |
| GroupedData.FoldAndShorter | include/grouped-data.hpp:74-89 | the AND fold is no longer than any list |
| GroupedData.FoldOrLonger | include/grouped-data.hpp:105-130 | the OR fold is at least as long as any list |
| GroupedData.NearChain | include/grouped-data.hpp:78 | proof helper for `FoldAndNear`: the triangle inequality for the `abs(a - b) <= md` test of line 78, so distances add up along a chain of merges |
| GroupedData.FoldAndNear | include/grouped-data.hpp:74-89 | every offset of the AND fold is within `(k-1)·md` of some offset of each of the `k` lists |
| GroupedData.GroupedMatchSound | include/grouped-data.hpp:61-132 | over a suffix array, the result is strictly increasing. No words give exactly `0 .. n-1`; otherwise every offset is an occurrence of some word |
| GroupedData.GroupedMatchAndNear | include/grouped-data.hpp:61-91 | over a suffix array, each offset of an AND group has an occurrence of every word within `(k-1)·md` |
| GroupedData.AndFoldWindow | include/grouped-data.hpp:74-89 | with `md = 7`, `[5]` AND `[10]` is `[5]`, while `[5]` AND `[20]` is empty |

## Left out

- main.cpp, examples/demo.cpp, file and console I/O, locale setup and timing have no logic to model and are not part of this model.
- include/string-data.hpp only forwards to the builder, `sa_match` and `grouped_match`. Its one constant, the default distance 5 (include/string-data.hpp:18), is `GroupedData.DefaultMaxDistance`. The `sa_ps` builder it calls (`include/sa-is.hpp`) is not part of this model; the second lineage's matchers take `sa` as a parameter.
- The getters of `SuffixArray` (include/sa_is.hpp:169-195) only return fields; the model exposes the fields.
- SaIs.BuildSais: not claimed to produce a suffix array. Without LMS renaming and recursion it does not (see Findings). The final order after the L and S passes is not stated.
- SaIs.InduceL, SaIs.InduceS: state only that slots stay empty or hold offsets, that a written slot holds an L-type (S-type) offset, and that empty input is left alone. They do not state which slot each offset reaches.
- SaIs.SuffixArray.constructor: requires non-negative code points. A negative `char` would index `buckets` out of range, and that case is not modelled.
- SaIs.ComputeLcp is a module method returning the arrays, which the constructor stores. The source fills `lcp_` in place.
- SaIs.SortSuffixes is an insertion sort of suffixes, not the linear-time algorithm. It stands for the intended result only.
- `int` overflow in sizes, midpoints and `abs(a - b)` is not modelled; integers are unbounded.
- The `CharT` templates are modelled with `int` code points (matchers) and `char` (parser).
- Parser.IsSpace: locale-dependent `isspace` beyond the C-locale set is not modelled.
- The AST's `shared_ptr` nodes are an immutable datatype, so sharing and aliasing of nodes are not modelled.
- SaPsMatch: `char_traits::compare` on a slot whose offset plus `|t|` exceeds `n + 1` spans memory past the terminator, which is undefined in C++. Whenever the length guard lets a pattern of length 3 or more through, the slot holding offset `n - 1` is one. The model reads NUL there. The exactness theorems require a NUL-free pattern, because the terminator is read as part of the window.
- Library internals (`std::sort`, `std::set_intersection`, `std::set_union`, `std::set_difference`, `char_traits::compare`) are specified by their results.

## Findings

| source | as written | input that shows it | evidently intended | confidence | as-written member | corrected member |
|---|---|---|---|---|---|---|
| include/sa_is.hpp:83-139 | `buildSAIS` places only LMS positions and induces from them. A text that never falls has no LMS position, so every slot stays -1, and the rank loop of `computeLCP` then writes `rank[-1]` | `"ab"` (any text of two or more code points that never falls) | `sa_` is the suffix array `[0, 1]` and `lcp_` is `[0, 0]` | not executed | SaIs.SuffixArray.constructor (with SaIs.BuildSais and SaIs.AbHasNoLms) | SaIs.SuffixArray.Corrected (with SaIs.SortSuffixes) |
