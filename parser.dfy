/**
 * The query language of the first lineage (include/parser.hpp): a tokenizer
 * for words, parentheses and the underscore-delimited operators `_AND_`,
 * `_OR_` and `_NOT_`, and a recursive-descent parser in which NOT binds
 * tightest, then AND, then OR.
 */
module Parser {
  import opened Wrappers

  datatype TokenType = Word | And | Or | Not | LParen | RParen | End

  /** A token; only words carry a value. */
  datatype Token = Token(kind: TokenType, value: string)

  /** A syntax tree node; a missing operand is `None` (a null pointer). */
  datatype Node =
    | WordNode(value: string)
    | AndNode(left: Option<Node>, right: Option<Node>)
    | OrNode(left: Option<Node>, right: Option<Node>)
    | NotNode(operand: Option<Node>)

  /** `isspace` of the C locale on the low byte of the code unit. */
  predicate IsSpace(c: char) {
    var b := (c as int) % 256;
    (9 <= b <= 13) || b == 32
  }

  /** A code unit the plain-word branch of the tokenizer keeps reading. */
  predicate WordChar(c: char) {
    !IsSpace(c) && c != '(' && c != ')' && c != '_'
  }

  /** ASCII upper-casing of one code unit; everything else is left alone. */
  function Upper(c: char): char {
    if 'a' <= c <= 'z' then (c as int - 'a' as int + 'A' as int) as char else c
  }

  function UpperAll(s: string): (r: string)
    ensures |r| == |s| && forall k :: 0 <= k < |s| ==> r[k] == Upper(s[k])
  {
    if s == [] then [] else [Upper(s[0])] + UpperAll(s[1..])
  }

  /** `str` begins with `prefix`, comparing ASCII letters without regard to case. */
  predicate PrefixIgnoringCase(str: string, prefix: string) {
    |prefix| <= |str| && forall i :: 0 <= i < |prefix| ==> Upper(str[i]) == Upper(prefix[i])
  }

  /** The spelling of each operator keyword, upper-cased. */
  function KeywordText(kind: TokenType): string {
    match kind
    case And => "AND"
    case Or => "OR"
    case Not => "NOT"
    case _ => ""
  }

  /**
   * The token for an underscore run whose text between the underscores is
   * `op` and whose whole text, underscores included, is `raw`.
   */
  function OperatorToken(op: string, raw: string): Token {
    var u := UpperAll(op);
    if u == KeywordText(And) then Token(And, "")
    else if u == KeywordText(Or) then Token(Or, "")
    else if u == KeywordText(Not) then Token(Not, "")
    else Token(Word, raw)
  }

  /** The offset of the first `_` at or after `k`, or the end of `q`. */
  function OperatorEnd(q: string, k: nat): (e: nat)
    requires k <= |q|
    ensures k <= e <= |q| && (e == |q| || q[e] == '_')
    decreases |q| - k
  {
    if k == |q| || q[k] == '_' then k else OperatorEnd(q, k + 1)
  }

  /** The offset of the first code unit at or after `k` that ends a plain word. */
  function WordEnd(q: string, k: nat): (e: nat)
    requires k <= |q|
    ensures k <= e <= |q| && (e == |q| || !WordChar(q[e]))
    decreases |q| - k
  {
    if k == |q| || !WordChar(q[k]) then k else WordEnd(q, k + 1)
  }

  /** The token that starts at the non-blank offset `i`, and the offset just after it. */
  function NextToken(q: string, i: nat): (r: (Token, nat))
    requires i < |q| && !IsSpace(q[i])
    ensures i < r.1 <= |q| && r.0.kind != End
  {
    if q[i] == '_' then
      var e := OperatorEnd(q, i + 1);
      var next := if e < |q| then e + 1 else e;
      (OperatorToken(q[i + 1..e], q[i..next]), next)
    else if q[i] == '(' then (Token(LParen, ""), i + 1)
    else if q[i] == ')' then (Token(RParen, ""), i + 1)
    else
      var e := WordEnd(q, i);
      (Token(Word, q[i..e]), e)
  }

  /** The tokens of `q` from offset `i` on, ending with `END`. */
  function LexFrom(q: string, i: nat): seq<Token>
    requires i <= |q|
    decreases |q| - i
  {
    if i == |q| then [Token(End, "")]
    else if IsSpace(q[i]) then LexFrom(q, i + 1)
    else
      var t := NextToken(q, i);
      [t.0] + LexFrom(q, t.1)
  }

  function Lex(q: string): seq<Token> {
    LexFrom(q, 0)
  }

  /** The values of the WORD tokens, in order. */
  function WordsOf(ts: seq<Token>): (r: seq<string>)
    ensures |r| <= |ts|
  {
    if ts == [] then []
    else if ts[0].kind == Word then [ts[0].value] + WordsOf(ts[1..])
    else WordsOf(ts[1..])
  }

  // ---------------------------------------------------------------------
  // The grammar, one function per parsing method, from token offset `p`.
  // ---------------------------------------------------------------------

  /** A parse result: the node (or null) and the offset just after it. */
  datatype Parsed = Parsed(node: Option<Node>, pos: nat)

  function OrExpr(ts: seq<Token>, p: nat): (r: Parsed)
    requires p <= |ts|
    ensures p <= r.pos <= |ts|
    decreases |ts| - p, 5
  {
    var l := AndExpr(ts, p);
    OrTail(ts, l.node, l.pos)
  }

  /** The `while` loop of `parseOr`: each `OR` joins the tree so far with the next AND term. */
  function OrTail(ts: seq<Token>, left: Option<Node>, p: nat): (r: Parsed)
    requires p <= |ts|
    ensures p <= r.pos <= |ts|
    decreases |ts| - p, 4
  {
    if p < |ts| && ts[p].kind == Or then
      var rt := AndExpr(ts, p + 1);
      OrTail(ts, Some(OrNode(left, rt.node)), rt.pos)
    else Parsed(left, p)
  }

  function AndExpr(ts: seq<Token>, p: nat): (r: Parsed)
    requires p <= |ts|
    ensures p <= r.pos <= |ts|
    decreases |ts| - p, 3
  {
    var l := NotExpr(ts, p);
    AndTail(ts, l.node, l.pos)
  }

  /** The `while` loop of `parseAnd`. */
  function AndTail(ts: seq<Token>, left: Option<Node>, p: nat): (r: Parsed)
    requires p <= |ts|
    ensures p <= r.pos <= |ts|
    decreases |ts| - p, 2
  {
    if p < |ts| && ts[p].kind == And then
      var rt := NotExpr(ts, p + 1);
      AndTail(ts, Some(AndNode(left, rt.node)), rt.pos)
    else Parsed(left, p)
  }

  function NotExpr(ts: seq<Token>, p: nat): (r: Parsed)
    requires p <= |ts|
    ensures p <= r.pos <= |ts|
    decreases |ts| - p, 1
  {
    if p < |ts| && ts[p].kind == Not then
      var o := PrimaryExpr(ts, p + 1);
      Parsed(Some(NotNode(o.node)), o.pos)
    else PrimaryExpr(ts, p)
  }

  function PrimaryExpr(ts: seq<Token>, p: nat): (r: Parsed)
    requires p <= |ts|
    ensures p <= r.pos <= |ts|
    decreases |ts| - p, 0
  {
    if p == |ts| then Parsed(None, p)
    else if ts[p].kind == LParen then
      var e := OrExpr(ts, p + 1);
      if e.pos < |ts| && ts[e.pos].kind == RParen then Parsed(e.node, e.pos + 1)
      else e
    else if ts[p].kind == Word then Parsed(Some(WordNode(ts[p].value)), p + 1)
    else Parsed(None, p)
  }

  /** The tree `parse(query)` returns. */
  function ParseQuery(q: string): Option<Node> {
    OrExpr(Lex(q), 0).node
  }

  /** `QueryParser`: the token list of the last query and the parser's position in it. */
  class QueryParser {
    var tokens: seq<Token>
    var current: nat

    constructor ()
      ensures tokens == [] && current == 0
    {
      tokens := [];
      current := 0;
    }

    /** `startsWithIgnoreCase` */
    method StartsWithIgnoreCase(str: string, prefix: string) returns (b: bool)
      ensures b <==> PrefixIgnoringCase(str, prefix)
    {
      if |str| < |prefix| {
        return false;
      }
      for i := 0 to |prefix|
        invariant forall k :: 0 <= k < i ==> Upper(str[k]) == Upper(prefix[k])
      {
        var c1, c2 := str[i], prefix[i];
        if 'a' <= c1 <= 'z' {
          c1 := (c1 as int - 'a' as int + 'A' as int) as char;
        }
        if 'a' <= c2 <= 'z' {
          c2 := (c2 as int - 'a' as int + 'A' as int) as char;
        }
        if c1 != c2 {
          return false;
        }
      }
      return true;
    }

    /** `tokenize`: replaces the token list with the tokens of `query`. */
    method Tokenize(query: string)
      modifies this
      ensures tokens == Lex(query) && current == old(current)
    {
      var toks: seq<Token> := [];
      var i := 0;
      while i < |query|
        invariant i <= |query|
        invariant toks + LexFrom(query, i) == Lex(query)
        invariant current == old(current)
        decreases |query| - i
      {
        i := SkipSpaces(query, i);
        if i < |query| {
          var tok;
          tok, i := ReadToken(query, i);
          toks := toks + [tok];
        }
      }
      assert LexFrom(query, i) == [Token(End, "")];
      tokens := toks + [Token(End, "")];
    }

    /** `parseOr` (and `parseExpression`, which only calls it). */
    method ParseOr() returns (node: Option<Node>)
      requires current <= |tokens|
      modifies this
      ensures tokens == old(tokens)
      ensures Parsed(node, current) == OrExpr(tokens, old(current))
      decreases |tokens| - current, 3
    {
      node := ParseAnd();
      while current < |tokens| && tokens[current].kind == Or
        invariant current <= |tokens| && tokens == old(tokens)
        invariant OrTail(tokens, node, current) == OrExpr(tokens, old(current))
        decreases |tokens| - current
      {
        current := current + 1;
        var right := ParseAnd();
        node := Some(OrNode(node, right));
      }
    }

    /** `parseAnd` */
    method ParseAnd() returns (node: Option<Node>)
      requires current <= |tokens|
      modifies this
      ensures tokens == old(tokens)
      ensures Parsed(node, current) == AndExpr(tokens, old(current))
      decreases |tokens| - current, 2
    {
      node := ParseNot();
      while current < |tokens| && tokens[current].kind == And
        invariant current <= |tokens| && tokens == old(tokens)
        invariant AndTail(tokens, node, current) == AndExpr(tokens, old(current))
        decreases |tokens| - current
      {
        current := current + 1;
        var right := ParseNot();
        node := Some(AndNode(node, right));
      }
    }

    /** `parseNot` */
    method ParseNot() returns (node: Option<Node>)
      requires current <= |tokens|
      modifies this
      ensures tokens == old(tokens)
      ensures Parsed(node, current) == NotExpr(tokens, old(current))
      decreases |tokens| - current, 1
    {
      if current < |tokens| && tokens[current].kind == Not {
        current := current + 1;
        var operand := ParsePrimary();
        return Some(NotNode(operand));
      }
      node := ParsePrimary();
    }

    /** `parsePrimary` */
    method ParsePrimary() returns (node: Option<Node>)
      requires current <= |tokens|
      modifies this
      ensures tokens == old(tokens)
      ensures Parsed(node, current) == PrimaryExpr(tokens, old(current))
      decreases |tokens| - current, 0
    {
      if current >= |tokens| {
        return None;
      }
      if tokens[current].kind == LParen {
        current := current + 1;
        node := ParseOr();
        if current < |tokens| && tokens[current].kind == RParen {
          current := current + 1;
        }
        return;
      }
      if tokens[current].kind == Word {
        node := Some(WordNode(tokens[current].value));
        current := current + 1;
        return;
      }
      return None;
    }

    /** `parse`: tokenize, rewind, and parse an expression. */
    method Parse(query: string) returns (node: Option<Node>)
      modifies this
      ensures tokens == Lex(query)
      ensures node == ParseQuery(query)
      ensures current == OrExpr(Lex(query), 0).pos
    {
      Tokenize(query);
      current := 0;
      node := ParseOr();
    }

    /** `extractWords`: the WORD token values of `query`, in order. */
    method ExtractWords(query: string) returns (words: seq<string>)
      modifies this
      ensures tokens == Lex(query) && current == old(current)
      ensures words == WordsOf(Lex(query))
    {
      Tokenize(query);
      words := [];
      for k := 0 to |tokens|
        invariant tokens == Lex(query)
        invariant words + WordsOf(tokens[k..]) == WordsOf(tokens)
      {
        assert tokens[k..] == [tokens[k]] + tokens[k + 1..];
        if tokens[k].kind == Word {
          words := words + [tokens[k].value];
        }
      }
    }
  }

  /**
   * One pass of the outer loop of `tokenize` after the whitespace: the token
   * that starts at `i`, and the offset after it.
   */
  method ReadToken(query: string, i0: nat) returns (tok: Token, i: nat)
    requires i0 < |query| && !IsSpace(query[i0])
    ensures (tok, i) == NextToken(query, i0)
  {
    i := i0;
    if query[i] == '_' {
      tok, i := ReadUnderscored(query, i);
    } else if query[i] == '(' {
      tok := Token(LParen, "");
      i := i + 1;
    } else if query[i] == ')' {
      tok := Token(RParen, "");
      i := i + 1;
    } else {
      var start := i;
      i := ReadWord(query, i);
      tok := Token(Word, query[start..i]);
    }
  }

  /**
   * The underscore branch of `tokenize`: the operator text up to the next
   * `_` (or the end), the closing `_` if there is one, and the keyword or
   * WORD token it makes.
   */
  method ReadUnderscored(query: string, start: nat) returns (tok: Token, i: nat)
    requires start < |query| && query[start] == '_'
    ensures var e := OperatorEnd(query, start + 1);
      i == (if e < |query| then e + 1 else e) &&
      tok == OperatorToken(query[start + 1..e], query[start..i])
  {
    var op;
    op, i := ReadOperator(query, start + 1);
    if i < |query| && query[i] == '_' {
      i := i + 1;
    }
    var opUpper := UpperCase(op);
    if opUpper == "AND" {
      tok := Token(And, "");
    } else if opUpper == "OR" {
      tok := Token(Or, "");
    } else if opUpper == "NOT" {
      tok := Token(Not, "");
    } else {
      tok := Token(Word, query[start..i]);
    }
  }

  /** The whitespace-skipping loop of `tokenize`. */
  method SkipSpaces(q: string, i0: nat) returns (i: nat)
    requires i0 <= |q|
    ensures i0 <= i <= |q| && (i == |q| || !IsSpace(q[i]))
    ensures LexFrom(q, i) == LexFrom(q, i0)
  {
    i := i0;
    while i < |q| && IsSpace(q[i])
      invariant i0 <= i <= |q|
      invariant LexFrom(q, i) == LexFrom(q, i0)
    {
      i := i + 1;
    }
  }

  /** The loop of `tokenize` that reads an operator up to the next `_`. */
  method ReadOperator(q: string, i0: nat) returns (op: string, i: nat)
    requires i0 <= |q|
    ensures i == OperatorEnd(q, i0) && op == q[i0..i]
  {
    op, i := [], i0;
    while i < |q| && q[i] != '_'
      invariant i0 <= i <= |q| && op == q[i0..i]
      invariant OperatorEnd(q, i) == OperatorEnd(q, i0)
    {
      op := op + [q[i]];
      i := i + 1;
    }
  }

  /** The loop of `tokenize` that upper-cases an operator. */
  method UpperCase(op: string) returns (r: string)
    ensures r == UpperAll(op)
  {
    r := op;
    for k := 0 to |r|
      invariant |r| == |op|
      invariant forall p :: 0 <= p < k ==> r[p] == Upper(op[p])
      invariant forall p :: k <= p < |r| ==> r[p] == op[p]
    {
      if 'a' <= r[k] <= 'z' {
        r := r[k := (r[k] as int - 'a' as int + 'A' as int) as char];
      }
    }
  }

  /** The loop of `tokenize` that reads a plain word. */
  method ReadWord(q: string, i0: nat) returns (i: nat)
    requires i0 <= |q|
    ensures i == WordEnd(q, i0)
  {
    i := i0;
    while i < |q| && !IsSpace(q[i]) && q[i] != '(' && q[i] != ')' && q[i] != '_'
      invariant i0 <= i <= |q|
      invariant WordEnd(q, i) == WordEnd(q, i0)
    {
      i := i + 1;
    }
  }

  // ---------------------------------------------------------------------
  // Properties of the tokenizer.
  // ---------------------------------------------------------------------

  /** The token list ends with `END`, and `END` appears nowhere else. */
  lemma {:induction false} LexEnd(q: string, i: nat)
    requires i <= |q|
    ensures var r := LexFrom(q, i);
      |r| > 0 && r[|r| - 1].kind == End && forall k :: 0 <= k < |r| - 1 ==> r[k].kind != End
    decreases |q| - i
  {
    if i < |q| {
      if IsSpace(q[i]) {
        LexEnd(q, i + 1);
      } else {
        LexEnd(q, NextToken(q, i).1);
      }
    }
  }

  /** Every code unit a plain word spans can continue a word. */
  lemma {:induction false} WordEndFacts(q: string, k: nat)
    requires k <= |q|
    ensures forall p :: k <= p < WordEnd(q, k) ==> WordChar(q[p])
    decreases |q| - k
  {
    if k < |q| && WordChar(q[k]) {
      WordEndFacts(q, k + 1);
    }
  }

  /**
   * A WORD token is non-empty; one that does not start with `_` came from
   * the plain-word branch and holds no whitespace, parenthesis or underscore.
   */
  lemma {:induction false} NextWord(q: string, i: nat)
    requires i < |q| && !IsSpace(q[i])
    ensures var t := NextToken(q, i).0;
      t.kind == Word ==>
        |t.value| > 0 && (t.value[0] == '_' || forall c :: c in t.value ==> WordChar(c))
  {
    if q[i] != '_' && q[i] != '(' && q[i] != ')' {
      var e := WordEnd(q, i);
      WordEndFacts(q, i);
      forall c | c in q[i..e] ensures WordChar(c) {
        var x :| 0 <= x < e - i && q[i..e][x] == c;
        assert q[i + x] == c;
      }
    }
  }

  /** `NextWord` for every token of the query. */
  lemma {:induction false} LexWords(q: string, i: nat)
    requires i <= |q|
    ensures forall t :: t in LexFrom(q, i) && t.kind == Word ==>
      |t.value| > 0 && (t.value[0] == '_' || forall c :: c in t.value ==> WordChar(c))
    decreases |q| - i
  {
    if i < |q| {
      if IsSpace(q[i]) {
        LexWords(q, i + 1);
      } else {
        NextWord(q, i);
        LexWords(q, NextToken(q, i).1);
      }
    }
  }

  // The tokens from an offset depend only on the text from that offset on:
  // each scanner below is compared on `q` at `k + p` and on `r == q[k..]` at `p`.

  lemma {:induction false} OperatorEndFrom(q: string, k: nat, r: string, p: nat, j: nat)
    requires k <= |q| && q[k..] == r && p <= |r| && j == k + p
    ensures OperatorEnd(q, j) == k + OperatorEnd(r, p)
    decreases |r| - p
  {
    if p < |r| {
      assert q[j] == r[p];
      OperatorEndFrom(q, k, r, p + 1, j + 1);
    }
  }

  lemma {:induction false} WordEndFrom(q: string, k: nat, r: string, p: nat, j: nat)
    requires k <= |q| && q[k..] == r && p <= |r| && j == k + p
    ensures WordEnd(q, j) == k + WordEnd(r, p)
    decreases |r| - p
  {
    if p < |r| {
      assert q[j] == r[p];
      WordEndFrom(q, k, r, p + 1, j + 1);
    }
  }

  lemma {:induction false} SliceFrom(q: string, k: nat, r: string, lo: nat, hi: nat, jlo: nat, jhi: nat)
    requires k <= |q| && q[k..] == r && lo <= hi <= |r| && jlo == k + lo && jhi == k + hi
    ensures q[jlo..jhi] == r[lo..hi]
  {
    forall p | 0 <= p < hi - lo ensures q[jlo..jhi][p] == r[lo..hi][p] {
      assert q[jlo + p] == q[k..][lo + p];
    }
  }

  /** The token an underscore starts. */
  lemma {:induction false} UnderscoreStep(q: string, j: nat)
    requires j < |q| && q[j] == '_'
    ensures var e := OperatorEnd(q, j + 1);
      var next := if e < |q| then e + 1 else e;
      NextToken(q, j) == (OperatorToken(q[j + 1..e], q[j..next]), next)
  {
  }

  /** Two underscores whose runs have the same text make the same token. */
  lemma {:induction false} UnderscoreSame(q: string, j: nat, r: string, i: nat, k: nat)
    requires j < |q| && q[j] == '_' && i < |r| && r[i] == '_' && |q| == k + |r|
    requires OperatorEnd(q, j + 1) == k + OperatorEnd(r, i + 1)
    requires q[j + 1..OperatorEnd(q, j + 1)] == r[i + 1..OperatorEnd(r, i + 1)]
    requires var e := OperatorEnd(q, j + 1); var e0 := OperatorEnd(r, i + 1);
      q[j..if e < |q| then e + 1 else e] == r[i..if e0 < |r| then e0 + 1 else e0]
    ensures NextToken(q, j) == (NextToken(r, i).0, k + NextToken(r, i).1)
  {
    UnderscoreStep(q, j);
    UnderscoreStep(r, i);
  }

  lemma {:induction false} OperatorFrom(q: string, k: nat, r: string, i: nat, j: nat)
    requires k <= |q| && q[k..] == r && i < |r| && r[i] == '_' && j == k + i
    ensures q[j] == '_'
    ensures NextToken(q, j) == (NextToken(r, i).0, k + NextToken(r, i).1)
  {
    assert q[j] == r[i];
    OperatorEndFrom(q, k, r, i + 1, j + 1);
    var e := OperatorEnd(r, i + 1);
    var next := if e < |r| then e + 1 else e;
    var e' := OperatorEnd(q, j + 1);
    var next' := if e' < |q| then e' + 1 else e';
    SliceFrom(q, k, r, i + 1, e, j + 1, e');
    SliceFrom(q, k, r, i, next, j, next');
    UnderscoreSame(q, j, r, i, k);
  }

  lemma {:induction false} WordFrom(q: string, k: nat, r: string, i: nat, j: nat)
    requires k <= |q| && q[k..] == r && i < |r| && WordChar(r[i]) && j == k + i
    ensures q[j] == r[i]
    ensures NextToken(q, j) == (NextToken(r, i).0, k + NextToken(r, i).1)
  {
    assert q[j] == r[i];
    WordEndFrom(q, k, r, i, j);
    var e := WordEnd(r, i);
    SliceFrom(q, k, r, i, e, j, WordEnd(q, j));
  }

  lemma {:induction false} NextTokenFrom(q: string, k: nat, r: string, i: nat, j: nat)
    requires k <= |q| && q[k..] == r && i < |r| && !IsSpace(r[i]) && j == k + i
    ensures q[j] == r[i]
    ensures NextToken(q, j) == (NextToken(r, i).0, k + NextToken(r, i).1)
  {
    if r[i] == '_' {
      OperatorFrom(q, k, r, i, j);
    } else if WordChar(r[i]) {
      WordFrom(q, k, r, i, j);
    } else {
      assert q[j] == r[i];
    }
  }

  /** One step of the tokenizer at a code unit that is not whitespace. */
  lemma {:induction false} LexStep(q: string, i: nat)
    requires i < |q| && !IsSpace(q[i])
    ensures LexFrom(q, i) == [NextToken(q, i).0] + LexFrom(q, NextToken(q, i).1)
  {
  }

  /** A blank makes no token. */
  lemma {:induction false} LexSpace(q: string, i: nat)
    requires i < |q| && IsSpace(q[i])
    ensures LexFrom(q, i) == LexFrom(q, i + 1)
  {
  }

  /** Two blanks followed by the same tokens start the same tokens. */
  lemma {:induction false} LexSkipBoth(q: string, j: nat, r: string, i: nat)
    requires j < |q| && i < |r| && IsSpace(q[j]) && IsSpace(r[i])
    requires LexFrom(q, j + 1) == LexFrom(r, i + 1)
    ensures LexFrom(q, j) == LexFrom(r, i)
  {
  }

  /** Two offsets that start the same token, followed by the same tokens, start the same tokens. */
  lemma {:induction false} LexCongruent(q: string, j: nat, r: string, i: nat)
    requires j < |q| && i < |r| && q[j] == r[i] && !IsSpace(r[i])
    requires NextToken(q, j).0 == NextToken(r, i).0
    requires LexFrom(q, NextToken(q, j).1) == LexFrom(r, NextToken(r, i).1)
    ensures LexFrom(q, j) == LexFrom(r, i)
  {
    LexStep(q, j);
    LexStep(r, i);
  }

  /** Tokenizing does not look back: the tokens from `j == k + i` on are those of `q[k..]` from `i`. */
  lemma {:induction false} LexFromSuffix(q: string, k: nat, r: string, i: nat, j: nat)
    requires k <= |q| && q[k..] == r && i <= |r| && j == k + i
    ensures LexFrom(q, j) == LexFrom(r, i)
    decreases |r| - i
  {
    if i < |r| {
      assert q[j] == r[i];
      if IsSpace(r[i]) {
        LexFromSuffix(q, k, r, i + 1, j + 1);
        LexSkipBoth(q, j, r, i);
      } else {
        NextTokenFrom(q, k, r, i, j);
        LexFromSuffix(q, k, r, NextToken(r, i).1, NextToken(q, j).1);
        LexCongruent(q, j, r, i);
      }
    }
  }

  /** A prefix does not change the tokens of the text after it. */
  lemma {:induction false} LexShift(pre: string, r: string)
    ensures LexFrom(pre + r, |pre|) == Lex(r)
  {
    assert (pre + r)[|pre|..] == r;
    LexFromSuffix(pre + r, |pre|, r, 0, |pre|);
  }

  lemma {:induction false} OperatorEndAt(q: string, k: nat, e: nat)
    requires k <= e <= |q| && (e == |q| || q[e] == '_')
    requires forall p :: k <= p < e ==> q[p] != '_'
    ensures OperatorEnd(q, k) == e
    decreases e - k
  {
    if k < e {
      OperatorEndAt(q, k + 1, e);
    }
  }

  lemma {:induction false} WordEndAt(q: string, k: nat, e: nat)
    requires k <= e <= |q| && (e == |q| || !WordChar(q[e]))
    requires forall p :: k <= p < e ==> WordChar(q[p])
    ensures WordEnd(q, k) == e
    decreases e - k
  {
    if k < e {
      WordEndAt(q, k + 1, e);
    }
  }

  /** Where an underscore run without an inner `_` ends, and what it spans. */
  lemma {:induction false} RunFacts(q: string, op: string)
    requires 1 + |op| <= |q| && q[0] == '_' && q[1..1 + |op|] == op
    requires forall p :: 0 <= p < |op| ==> op[p] != '_'
    requires 1 + |op| == |q| || q[1 + |op|] == '_'
    ensures OperatorEnd(q, 1) == 1 + |op|
  {
    forall p | 1 <= p < 1 + |op| ensures q[p] != '_' {
      assert q[p] == q[1..1 + |op|][p - 1];
    }
    OperatorEndAt(q, 1, 1 + |op|);
  }

  /** An underscore run `_op_` without a `_` inside: its token, then the tokens of what follows. */
  lemma {:induction false} UnderscoreClosed(op: string, rest: string)
    requires forall p :: 0 <= p < |op| ==> op[p] != '_'
    ensures Lex("_" + op + "_" + rest) == [OperatorToken(op, "_" + op + "_")] + Lex(rest)
  {
    var pre := "_" + op + "_";
    var q := pre + rest;
    assert q[0] == '_' && q[1..1 + |op|] == op && q[1 + |op|] == '_';
    RunFacts(q, op);
    assert q[0..2 + |op|] == pre;
    UnderscoreStep(q, 0);
    LexStep(q, 0);
    LexShift(pre, rest);
  }

  /** A query whose first token runs to its end lexes to that token, then `END`. */
  lemma {:induction false} LastToken(q: string, t: Token)
    requires 0 < |q| && !IsSpace(q[0]) && NextToken(q, 0) == (t, |q|)
    ensures Lex(q) == [t, Token(End, "")]
  {
    LexStep(q, 0);
  }

  /** An underscore run `_op` that the end of the query closes: its token, then `END`. */
  lemma {:induction false} UnderscoreOpen(op: string)
    requires forall p :: 0 <= p < |op| ==> op[p] != '_'
    ensures Lex("_" + op) == [OperatorToken(op, "_" + op), Token(End, "")]
  {
    var q := "_" + op;
    assert q[0] == '_' && q[1..1 + |op|] == op;
    RunFacts(q, op);
    assert q[0..|q|] == q;
    UnderscoreStep(q, 0);
    LastToken(q, OperatorToken(op, q));
  }

  /**
   * `_and_`, `_Or_`, `_NOT` and every other ASCII spelling of a keyword,
   * closed by `_` or ended by the end of the query, make that operator.
   */
  lemma {:induction false} KeywordAnyCase(kind: TokenType, op: string, rest: string)
    requires kind == And || kind == Or || kind == Not
    requires UpperAll(op) == KeywordText(kind)
    ensures Lex("_" + op + "_" + rest) == [Token(kind, "")] + Lex(rest)
    ensures Lex("_" + op) == [Token(kind, ""), Token(End, "")]
  {
    forall p | 0 <= p < |op| ensures op[p] != '_' {
      assert UpperAll(op)[p] == Upper(op[p]);
    }
    UnderscoreClosed(op, rest);
    UnderscoreOpen(op);
  }

  /** Underscore-delimited text that is no keyword is a WORD, underscores included. */
  lemma {:induction false} UnderscoreWord(op: string, rest: string)
    requires forall p :: 0 <= p < |op| ==> op[p] != '_'
    requires UpperAll(op) != "AND" && UpperAll(op) != "OR" && UpperAll(op) != "NOT"
    ensures Lex("_" + op + "_" + rest) == [Token(Word, "_" + op + "_")] + Lex(rest)
    ensures Lex("_" + op) == [Token(Word, "_" + op), Token(End, "")]
  {
    UnderscoreClosed(op, rest);
    UnderscoreOpen(op);
  }

  /** A plain word followed by something that cannot continue it is one WORD token. */
  lemma {:induction false} PlainWord(w: string, rest: string)
    requires |w| > 0 && forall p :: 0 <= p < |w| ==> WordChar(w[p])
    requires rest == [] || !WordChar(rest[0])
    ensures Lex(w + rest) == [Token(Word, w)] + Lex(rest)
  {
    var q := w + rest;
    forall p | 0 <= p < |w| ensures WordChar(q[p]) {
      assert q[p] == w[p];
    }
    if rest != [] {
      assert q[|w|] == rest[0];
    }
    WordEndAt(q, 0, |w|);
    assert q[0..|w|] == w;
    LexShift(w, rest);
  }

  /** One blank makes no token. */
  lemma {:induction false} Blank(c: char, rest: string)
    requires IsSpace(c)
    ensures Lex([c] + rest) == Lex(rest)
  {
    var q := [c] + rest;
    assert q[0] == c;
    LexSpace(q, 0);
    LexShift([c], rest);
  }

  /** Whitespace makes no token. */
  lemma {:induction false} Spaces(sp: string, rest: string)
    requires forall p :: 0 <= p < |sp| ==> IsSpace(sp[p])
    ensures Lex(sp + rest) == Lex(rest)
    decreases |sp|
  {
    if sp != [] {
      var tail := sp[1..] + rest;
      assert sp + rest == [sp[0]] + tail;
      Spaces(sp[1..], rest);
      Blank(sp[0], tail);
    } else {
      assert sp + rest == rest;
    }
  }

  /** A plain word, then one blank, then the rest. */
  lemma {:induction false} WordThenBlank(w: string, rest: string)
    requires |w| > 0 && forall p :: 0 <= p < |w| ==> WordChar(w[p])
    ensures Lex(w + " " + rest) == [Token(Word, w)] + Lex(rest)
  {
    assert w + " " + rest == w + (" " + rest);
    PlainWord(w, " " + rest);
    Spaces(" ", rest);
  }

  /** A keyword between underscores, then one blank, then the rest. */
  lemma {:induction false} KeywordThenBlank(kind: TokenType, op: string, rest: string)
    requires kind == And || kind == Or || kind == Not
    requires UpperAll(op) == KeywordText(kind)
    ensures Lex("_" + op + "_" + " " + rest) == [Token(kind, "")] + Lex(rest)
  {
    var r := " " + rest;
    assert "_" + op + "_" + " " + rest == "_" + op + "_" + r;
    KeywordAnyCase(kind, op, r);
    assert IsSpace(" "[0]);
    Spaces(" ", rest);
    assert Lex(r) == Lex(rest);
  }

  lemma {:induction false} WordsOfAppend(a: seq<Token>, b: seq<Token>)
    ensures WordsOf(a + b) == WordsOf(a) + WordsOf(b)
    decreases |a|
  {
    if a != [] {
      assert (a + b)[0] == a[0];
      assert (a + b)[1..] == a[1..] + b;
      WordsOfAppend(a[1..], b);
    } else {
      assert a + b == b;
    }
  }

  /** A plain word of the query. */
  predicate Plain(w: string) {
    |w| > 0 && forall p :: 0 <= p < |w| ==> WordChar(w[p])
  }

  /** `w1 _op_ w2`, with one blank around the operator. */
  lemma {:induction false} WordOpWord(w1: string, kind: TokenType, op: string, w2: string)
    requires Plain(w1) && Plain(w2)
    requires kind == And || kind == Or || kind == Not
    requires UpperAll(op) == KeywordText(kind)
    ensures Lex(w1 + " " + ("_" + op + "_" + " " + w2)) ==
      [Token(Word, w1), Token(kind, ""), Token(Word, w2), Token(End, "")]
    ensures WordsOf(Lex(w1 + " " + ("_" + op + "_" + " " + w2))) == [w1, w2]
  {
    WordThenBlank(w1, "_" + op + "_" + " " + w2);
    KeywordThenBlank(kind, op, w2);
    PlainWord(w2, "");
    assert w2 + "" == w2;
    var ts := [Token(Word, w1), Token(kind, ""), Token(Word, w2), Token(End, "")];
    assert WordsOf(ts[3..]) == [];
    assert WordsOf(ts[2..]) == [w2];
    assert WordsOf(ts[1..]) == [w2];
  }

  lemma {:induction false} RomeoJulietPlain()
    ensures Plain("Romeo") && Plain("Juliet")
  {
    var r, j := "Romeo", "Juliet";
    assert r[0] == 'R' && r[1] == 'o' && r[2] == 'm' && r[3] == 'e' && r[4] == 'o';
    assert j[0] == 'J' && j[1] == 'u' && j[2] == 'l' && j[3] == 'i' && j[4] == 'e' && j[5] == 't';
  }

  lemma {:induction false} LoveHatePlain()
    ensures Plain("love") && Plain("hate")
  {
    var l, h := "love", "hate";
    assert l[0] == 'l' && l[1] == 'o' && l[2] == 'v' && l[3] == 'e';
    assert h[0] == 'h' && h[1] == 'a' && h[2] == 't' && h[3] == 'e';
  }

  /** `extractWords("Romeo _AND_ Juliet")` is `["Romeo", "Juliet"]`. */
  lemma {:induction false} ExtractRomeoAndJuliet(q: string)
    requires q == "Romeo _AND_ Juliet"
    ensures Lex(q) == [Token(Word, "Romeo"), Token(And, ""), Token(Word, "Juliet"), Token(End, "")]
    ensures WordsOf(Lex(q)) == ["Romeo", "Juliet"]
  {
    assert q == "Romeo" + " " + ("_" + "AND" + "_" + " " + "Juliet");
    RomeoJulietPlain();
    WordOpWord("Romeo", And, "AND", "Juliet");
  }

  /** `extractWords("love _OR_ hate")` is `["love", "hate"]`. */
  lemma {:induction false} ExtractLoveOrHate(q: string)
    requires q == "love _OR_ hate"
    ensures Lex(q) == [Token(Word, "love"), Token(Or, ""), Token(Word, "hate"), Token(End, "")]
    ensures WordsOf(Lex(q)) == ["love", "hate"]
  {
    assert q == "love" + " " + ("_" + "OR" + "_" + " " + "hate");
    LoveHatePlain();
    WordOpWord("love", Or, "OR", "hate");
  }

  /** `w1 _op1_ w2 _op2_ w3`, with one blank around each operator: its tokens. */
  lemma {:induction false} ThreeTokens(w1: string, k1: TokenType, op1: string, w2: string,
                                       k2: TokenType, op2: string, w3: string)
    requires Plain(w1) && Plain(w2) && Plain(w3)
    requires k1 == And || k1 == Or || k1 == Not
    requires k2 == And || k2 == Or || k2 == Not
    requires UpperAll(op1) == KeywordText(k1) && UpperAll(op2) == KeywordText(k2)
    ensures var q := w1 + " " + ("_" + op1 + "_" + " " + (w2 + " " + ("_" + op2 + "_" + " " + w3)));
      Lex(q) == [Token(Word, w1), Token(k1, ""), Token(Word, w2), Token(k2, ""), Token(Word, w3), Token(End, "")]
  {
    var tail := w2 + " " + ("_" + op2 + "_" + " " + w3);
    var mid := "_" + op1 + "_" + " " + tail;
    var four := [Token(Word, w2), Token(k2, ""), Token(Word, w3), Token(End, "")];
    WordOpWord(w2, k2, op2, w3);
    assert Lex(tail) == four;
    KeywordThenBlank(k1, op1, tail);
    assert Lex(mid) == [Token(k1, "")] + four;
    WordThenBlank(w1, mid);
    assert [Token(Word, w1)] + ([Token(k1, "")] + four) ==
      [Token(Word, w1), Token(k1, ""), Token(Word, w2), Token(k2, ""), Token(Word, w3), Token(End, "")];
  }

  /** The words of `w1 _op1_ w2 _op2_ w3`. */
  lemma {:induction false} ThreeWords(w1: string, k1: TokenType, op1: string, w2: string,
                                      k2: TokenType, op2: string, w3: string)
    requires Plain(w1) && Plain(w2) && Plain(w3)
    requires k1 == And || k1 == Or || k1 == Not
    requires k2 == And || k2 == Or || k2 == Not
    requires UpperAll(op1) == KeywordText(k1) && UpperAll(op2) == KeywordText(k2)
    ensures var q := w1 + " " + ("_" + op1 + "_" + " " + (w2 + " " + ("_" + op2 + "_" + " " + w3)));
      WordsOf(Lex(q)) == [w1, w2, w3]
  {
    ThreeTokens(w1, k1, op1, w2, k2, op2, w3);
    WordsOfSix(w1, k1, w2, k2, w3);
  }

  lemma {:induction false} WordsOfSix(w1: string, k1: TokenType, w2: string, k2: TokenType, w3: string)
    requires k1 != Word && k2 != Word
    ensures WordsOf([Token(Word, w1), Token(k1, ""), Token(Word, w2), Token(k2, ""), Token(Word, w3), Token(End, "")])
      == [w1, w2, w3]
  {
    var ts := [Token(Word, w1), Token(k1, ""), Token(Word, w2), Token(k2, ""), Token(Word, w3), Token(End, "")];
    assert WordsOf(ts[5..]) == [];
    assert WordsOf(ts[4..]) == [w3];
    assert WordsOf(ts[3..]) == [w3];
    assert WordsOf(ts[2..]) == [w2, w3];
    assert WordsOf(ts[1..]) == [w2, w3];
  }

  /** `extractWords("Romeo _AND_ Juliet _OR_ love")` has three words. */
  lemma {:induction false} ExtractThreeWords(q: string)
    requires q == "Romeo _AND_ Juliet _OR_ love"
    ensures WordsOf(Lex(q)) == ["Romeo", "Juliet", "love"]
  {
    assert q == "Romeo" + " " + ("_" + "AND" + "_" + " " + ("Juliet" + " " + ("_" + "OR" + "_" + " " + "love")));
    RomeoJulietPlain();
    LoveHatePlain();
    ThreeWords("Romeo", And, "AND", "Juliet", Or, "OR", "love");
  }

  /** Plain words separated by single blanks. */
  function JoinWords(ws: seq<string>): string {
    if ws == [] then []
    else if |ws| == 1 then ws[0]
    else ws[0] + " " + JoinWords(ws[1..])
  }

  /**
   * A query without operators, parentheses or underscores extracts exactly
   * its blank-separated words, in order.
   */
  lemma {:induction false} ExtractPlainWords(ws: seq<string>)
    requires forall i :: 0 <= i < |ws| ==> Plain(ws[i])
    ensures WordsOf(Lex(JoinWords(ws))) == ws
    decreases |ws|
  {
    if ws == [] {
      EmptyQuery();
      assert WordsOf([Token(End, "")]) == [];
    } else {
      assert Plain(ws[0]);
      var rest := if |ws| == 1 then [] else JoinWords(ws[1..]);
      if |ws| == 1 {
        assert JoinWords(ws) == ws[0] == ws[0] + [];
        PlainWord(ws[0], []);
        EmptyQuery();
        assert Lex(JoinWords(ws)) == [Token(Word, ws[0])] + [Token(End, "")];
      } else {
        WordThenBlank(ws[0], rest);
        ExtractPlainWords(ws[1..]);
      }
      WordsOfAppend([Token(Word, ws[0])], Lex(rest));
      assert WordsOf([Token(Word, ws[0])]) == [ws[0]];
      assert ws == [ws[0]] + ws[1..];
    }
  }

  // ---------------------------------------------------------------------
  // The grammar read back: a fully parenthesised printer that `parse`
  // inverts, and the precedence and error cases of the grammar.
  // ---------------------------------------------------------------------

  /**
   * Tokens for a tree, every operator with its operands in parentheses; a
   * missing operand prints as nothing.
   */
  function Print(o: Option<Node>): seq<Token>
    decreases o, 1
  {
    match o
    case None => []
    case Some(t) => PrintNode(t)
  }

  function PrintNode(t: Node): seq<Token>
    decreases t, 0
  {
    match t
    case WordNode(v) => [Token(Word, v)]
    case AndNode(l, r) =>
      [Token(LParen, "")] + Print(l) + [Token(And, "")] + Print(r) + [Token(RParen, "")]
    case OrNode(l, r) =>
      [Token(LParen, "")] + Print(l) + [Token(Or, "")] + Print(r) + [Token(RParen, "")]
    case NotNode(x) =>
      [Token(Not, ""), Token(LParen, "")] + Print(x) + [Token(RParen, "")]
  }

  /** No primary (and no `NOT`) starts at `p`. */
  predicate NoPrimary(ts: seq<Token>, p: nat) {
    p >= |ts| || (ts[p].kind != Not && ts[p].kind != LParen && ts[p].kind != Word)
  }

  /** `ts` holds `x` at offset `p`. */
  predicate At(ts: seq<Token>, p: nat, x: seq<Token>) {
    p + |x| <= |ts| && ts[p..p + |x|] == x
  }

  lemma {:induction false} AtSplit(ts: seq<Token>, p: nat, x: seq<Token>, y: seq<Token>)
    requires At(ts, p, x + y)
    ensures At(ts, p, x) && At(ts, p + |x|, y)
  {
    assert ts[p..p + |x|] == ts[p..p + |x + y|][..|x|];
    assert ts[p + |x|..p + |x| + |y|] == ts[p..p + |x + y|][|x|..];
  }

  lemma {:induction false} AtOne(ts: seq<Token>, p: nat, t: Token)
    requires At(ts, p, [t])
    ensures p < |ts| && ts[p] == t
  {
    assert ts[p] == ts[p..p + 1][0];
  }

  /** The pieces of a printed binary node `( a op b )`. */
  lemma {:induction false} BinaryAt(ts: seq<Token>, p: nat, a: seq<Token>, op: Token, b: seq<Token>)
    requires At(ts, p, [Token(LParen, "")] + a + [op] + b + [Token(RParen, "")])
    ensures ts[p] == Token(LParen, "") && At(ts, p + 1, a)
    ensures var e1 := p + 1 + |a|; ts[e1] == op && At(ts, e1 + 1, b)
    ensures var e1 := p + 1 + |a|; ts[e1 + 1 + |b|] == Token(RParen, "")
  {
    var e1 := p + 1 + |a|;
    AtSplit(ts, p, [Token(LParen, "")] + a + [op] + b, [Token(RParen, "")]);
    AtSplit(ts, p, [Token(LParen, "")] + a + [op], b);
    AtSplit(ts, p, [Token(LParen, "")] + a, [op]);
    AtSplit(ts, p, [Token(LParen, "")], a);
    AtOne(ts, p, Token(LParen, ""));
    AtOne(ts, e1, op);
    AtOne(ts, e1 + 1 + |b|, Token(RParen, ""));
  }

  /** The pieces of a printed negation `NOT ( a )`. */
  lemma {:induction false} NegationAt(ts: seq<Token>, p: nat, a: seq<Token>)
    requires At(ts, p, [Token(Not, ""), Token(LParen, "")] + a + [Token(RParen, "")])
    ensures ts[p] == Token(Not, "") && ts[p + 1] == Token(LParen, "") && At(ts, p + 2, a)
    ensures ts[p + 2 + |a|] == Token(RParen, "")
  {
    AtSplit(ts, p, [Token(Not, ""), Token(LParen, "")] + a, [Token(RParen, "")]);
    AtSplit(ts, p, [Token(Not, ""), Token(LParen, "")], a);
    AtSplit(ts, p, [Token(Not, "")], [Token(LParen, "")]);
    AtOne(ts, p, Token(Not, ""));
    AtOne(ts, p + 1, Token(LParen, ""));
    AtOne(ts, p + 2 + |a|, Token(RParen, ""));
  }

  /**
   * `parseNot` reads a printed tree back, whatever follows it; so do
   * `parseAnd` and `parseOr` when an operator-free token follows.
   */
  lemma {:induction false} PrintParses(o: Option<Node>, ts: seq<Token>, p: nat)
    requires At(ts, p, Print(o)) && NoPrimary(ts, p + |Print(o)|)
    ensures NotExpr(ts, p) == Parsed(o, p + |Print(o)|)
    decreases o, 2
  {
    match o
    case None =>
    case Some(WordNode(v)) =>
      AtOne(ts, p, Token(Word, v));
    case Some(AndNode(l, r)) =>
      assert At(ts, p, Print(Some(AndNode(l, r))));
      AndParses(l, r, ts, p);
    case Some(OrNode(l, r)) =>
      assert At(ts, p, Print(Some(OrNode(l, r))));
      OrParses(l, r, ts, p);
    case Some(NotNode(x)) =>
      assert Print(o) == [Token(Not, ""), Token(LParen, "")] + Print(x) + [Token(RParen, "")];
      NegationAt(ts, p, Print(x));
      assert p + 2 + |Print(x)| < |ts|;
      InnerParses(x, ts, p + 2);
  }

  /**
   * A printed tree followed by `)` is what `parseOr` reads inside
   * parentheses; followed by `END`, what it reads at the top level.
   */
  lemma {:induction false} InnerParses(o: Option<Node>, ts: seq<Token>, p: nat)
    requires At(ts, p, Print(o)) && p + |Print(o)| < |ts|
    requires ts[p + |Print(o)|] == Token(RParen, "") || ts[p + |Print(o)|] == Token(End, "")
    ensures OrExpr(ts, p) == Parsed(o, p + |Print(o)|)
    decreases o, 3
  {
    var e := p + |Print(o)|;
    PrintParses(o, ts, p);
    assert AndTail(ts, o, e) == Parsed(o, e);
    assert OrTail(ts, o, e) == Parsed(o, e);
  }

  /**
   * Parsing inverts printing: the tokens of any tree, closed by `END`,
   * parse back to that very tree and stop at the `END`.
   */
  lemma {:induction false} ParsePrint(o: Option<Node>)
    ensures var ts := Print(o) + [Token(End, "")];
      OrExpr(ts, 0) == Parsed(o, |Print(o)|) && ts[|Print(o)|].kind == End
  {
    var ts := Print(o) + [Token(End, "")];
    assert ts[0..|Print(o)|] == Print(o);
    InnerParses(o, ts, 0);
  }

  /** `( l AND r )` is one primary, an AND node. */
  lemma {:induction false} AndStep(ts: seq<Token>, p: nat, l: Option<Node>, e1: nat, r: Option<Node>, e2: nat)
    requires p < |ts| && ts[p] == Token(LParen, "")
    requires p + 1 <= |ts| && NotExpr(ts, p + 1) == Parsed(l, e1)
    requires e1 < |ts| && ts[e1] == Token(And, "")
    requires NotExpr(ts, e1 + 1) == Parsed(r, e2)
    requires e2 < |ts| && ts[e2] == Token(RParen, "")
    ensures NotExpr(ts, p) == Parsed(Some(AndNode(l, r)), e2 + 1)
  {
    var t := Some(AndNode(l, r));
    assert AndTail(ts, t, e2) == Parsed(t, e2);
    assert AndTail(ts, l, e1) == Parsed(t, e2);
    assert OrTail(ts, t, e2) == Parsed(t, e2);
    assert OrExpr(ts, p + 1) == Parsed(t, e2);
  }

  /** `( l OR r )` is one primary, an OR node. */
  lemma {:induction false} OrStep(ts: seq<Token>, p: nat, l: Option<Node>, e1: nat, r: Option<Node>, e2: nat)
    requires p < |ts| && ts[p] == Token(LParen, "")
    requires p + 1 <= |ts| && NotExpr(ts, p + 1) == Parsed(l, e1)
    requires e1 < |ts| && ts[e1] == Token(Or, "")
    requires NotExpr(ts, e1 + 1) == Parsed(r, e2)
    requires e2 < |ts| && ts[e2] == Token(RParen, "")
    ensures NotExpr(ts, p) == Parsed(Some(OrNode(l, r)), e2 + 1)
  {
    var t := Some(OrNode(l, r));
    assert AndTail(ts, l, e1) == Parsed(l, e1);
    assert AndTail(ts, r, e2) == Parsed(r, e2);
    assert OrTail(ts, t, e2) == Parsed(t, e2);
    assert OrTail(ts, l, e1) == Parsed(t, e2);
    assert OrExpr(ts, p + 1) == Parsed(t, e2);
  }

  lemma {:induction false} AndParses(l: Option<Node>, r: Option<Node>, ts: seq<Token>, p: nat)
    requires At(ts, p, Print(Some(AndNode(l, r))))
    ensures NotExpr(ts, p) == Parsed(Some(AndNode(l, r)), p + |Print(Some(AndNode(l, r)))|)
    decreases Some(AndNode(l, r)), 1
  {
    var a, b := Print(l), Print(r);
    assert PrintNode(AndNode(l, r)) == [Token(LParen, "")] + a + [Token(And, "")] + b + [Token(RParen, "")];
    BinaryAt(ts, p, a, Token(And, ""), b);
    var e1 := p + 1 + |a|;
    var e2 := e1 + 1 + |b|;
    OperandsParse(ts, p, l, a, Token(And, ""), r, b, AndNode(l, r), e1, e2);
    AndStep(ts, p, l, e1, r, e2);
  }

  lemma {:induction false} OrParses(l: Option<Node>, r: Option<Node>, ts: seq<Token>, p: nat)
    requires At(ts, p, Print(Some(OrNode(l, r))))
    ensures NotExpr(ts, p) == Parsed(Some(OrNode(l, r)), p + |Print(Some(OrNode(l, r)))|)
    decreases Some(OrNode(l, r)), 1
  {
    var a, b := Print(l), Print(r);
    assert PrintNode(OrNode(l, r)) == [Token(LParen, "")] + a + [Token(Or, "")] + b + [Token(RParen, "")];
    BinaryAt(ts, p, a, Token(Or, ""), b);
    var e1 := p + 1 + |a|;
    var e2 := e1 + 1 + |b|;
    OperandsParse(ts, p, l, a, Token(Or, ""), r, b, OrNode(l, r), e1, e2);
    OrStep(ts, p, l, e1, r, e2);
  }

  /** Inside `( a op b )`, `a` and `b` parse back as the subtrees they print. */
  lemma {:induction false} OperandsParse(ts: seq<Token>, p: nat, l: Option<Node>, a: seq<Token>, op: Token,
                                         r: Option<Node>, b: seq<Token>, t: Node, e1: nat, e2: nat)
    requires t == AndNode(l, r) || t == OrNode(l, r)
    requires a == Print(l) && b == Print(r) && (op == Token(And, "") || op == Token(Or, ""))
    requires e1 == p + 1 + |a| && e2 == e1 + 1 + |b|
    requires At(ts, p + 1, a) && e1 < |ts| && ts[e1] == op
    requires At(ts, e1 + 1, b) && e2 < |ts| && ts[e2] == Token(RParen, "")
    ensures NotExpr(ts, p + 1) == Parsed(l, e1)
    ensures NotExpr(ts, e1 + 1) == Parsed(r, e2)
    decreases Some(t), 0
  {
    PrintParses(l, ts, p + 1);
    PrintParses(r, ts, e1 + 1);
  }

  /** A `WORD` token is a primary on its own. */
  lemma {:induction false} WordPrimary(ts: seq<Token>, p: nat)
    requires p < |ts| && ts[p].kind == Word
    ensures NotExpr(ts, p) == Parsed(Some(WordNode(ts[p].value)), p + 1)
  {
    assert PrimaryExpr(ts, p) == Parsed(Some(WordNode(ts[p].value)), p + 1);
  }

  /** Neither loop goes on at a token that is no operator. */
  lemma {:induction false} NoTail(ts: seq<Token>, o: Option<Node>, p: nat)
    requires p < |ts| && ts[p].kind != And && ts[p].kind != Or
    ensures AndTail(ts, o, p) == Parsed(o, p) && OrTail(ts, o, p) == Parsed(o, p)
  {
  }

  /** `AND` binds tighter than `OR`: `a OR b AND c` is `a OR (b AND c)`. */
  lemma {:induction false} AndBindsTighter(ts: seq<Token>, a: string, b: string, c: string)
    requires ts == [Token(Word, a), Token(Or, ""), Token(Word, b), Token(And, ""), Token(Word, c), Token(End, "")]
    ensures OrExpr(ts, 0) ==
      Parsed(Some(OrNode(Some(WordNode(a)), Some(AndNode(Some(WordNode(b)), Some(WordNode(c)))))), 5)
  {
    var wa, wb, wc := Some(WordNode(a)), Some(WordNode(b)), Some(WordNode(c));
    var bc := Some(AndNode(wb, wc));
    var t := Some(OrNode(wa, bc));
    WordPrimary(ts, 0);
    WordPrimary(ts, 2);
    WordPrimary(ts, 4);
    NoTail(ts, bc, 5);
    NoTail(ts, t, 5);
    assert AndTail(ts, wb, 3) == Parsed(bc, 5);
    assert AndExpr(ts, 2) == Parsed(bc, 5);
    assert AndTail(ts, wa, 1) == Parsed(wa, 1);
    assert AndExpr(ts, 0) == Parsed(wa, 1);
    assert OrTail(ts, wa, 1) == Parsed(t, 5);
  }

  /** `AND` groups to the left: `a AND b AND c` is `(a AND b) AND c`. */
  lemma {:induction false} AndGroupsLeft(ts: seq<Token>, a: string, b: string, c: string)
    requires ts == [Token(Word, a), Token(And, ""), Token(Word, b), Token(And, ""), Token(Word, c), Token(End, "")]
    ensures OrExpr(ts, 0) ==
      Parsed(Some(AndNode(Some(AndNode(Some(WordNode(a)), Some(WordNode(b)))), Some(WordNode(c)))), 5)
  {
    var wa, wb, wc := Some(WordNode(a)), Some(WordNode(b)), Some(WordNode(c));
    var ab := Some(AndNode(wa, wb));
    var t := Some(AndNode(ab, wc));
    WordPrimary(ts, 0);
    WordPrimary(ts, 2);
    WordPrimary(ts, 4);
    NoTail(ts, t, 5);
    assert AndTail(ts, ab, 3) == Parsed(t, 5);
    assert AndTail(ts, wa, 1) == Parsed(t, 5);
    assert AndExpr(ts, 0) == Parsed(t, 5);
  }

  /** `OR` groups to the left: `a OR b OR c` is `(a OR b) OR c`. */
  lemma {:induction false} OrGroupsLeft(ts: seq<Token>, a: string, b: string, c: string)
    requires ts == [Token(Word, a), Token(Or, ""), Token(Word, b), Token(Or, ""), Token(Word, c), Token(End, "")]
    ensures OrExpr(ts, 0) ==
      Parsed(Some(OrNode(Some(OrNode(Some(WordNode(a)), Some(WordNode(b)))), Some(WordNode(c)))), 5)
  {
    var wa, wb, wc := Some(WordNode(a)), Some(WordNode(b)), Some(WordNode(c));
    var ab := Some(OrNode(wa, wb));
    var t := Some(OrNode(ab, wc));
    WordPrimary(ts, 0);
    WordPrimary(ts, 2);
    WordPrimary(ts, 4);
    NoTail(ts, t, 5);
    assert AndTail(ts, wa, 1) == Parsed(wa, 1);
    assert AndExpr(ts, 0) == Parsed(wa, 1);
    assert AndTail(ts, wb, 3) == Parsed(wb, 3);
    assert AndExpr(ts, 2) == Parsed(wb, 3);
    NoTail(ts, wc, 5);
    assert AndExpr(ts, 4) == Parsed(wc, 5);
    assert OrTail(ts, ab, 3) == Parsed(t, 5);
    assert OrTail(ts, wa, 1) == Parsed(t, 5);
  }

  /** `NOT` takes one primary: `NOT a AND b` is `(NOT a) AND b`. */
  lemma {:induction false} NotTakesPrimary(ts: seq<Token>, a: string, b: string)
    requires ts == [Token(Not, ""), Token(Word, a), Token(And, ""), Token(Word, b), Token(End, "")]
    ensures OrExpr(ts, 0) ==
      Parsed(Some(AndNode(Some(NotNode(Some(WordNode(a)))), Some(WordNode(b)))), 4)
  {
    var na := Some(NotNode(Some(WordNode(a))));
    var t := Some(AndNode(na, Some(WordNode(b))));
    assert PrimaryExpr(ts, 1) == Parsed(Some(WordNode(a)), 2);
    assert NotExpr(ts, 0) == Parsed(na, 2);
    WordPrimary(ts, 3);
    NoTail(ts, t, 4);
    assert AndTail(ts, na, 2) == Parsed(t, 4);
    assert AndExpr(ts, 0) == Parsed(t, 4);
  }

  /**
   * `NOT NOT a`: the operand of `NOT` is a primary, and `NOT` is none, so
   * the result is a `NOT` node with no operand and parsing stops after the
   * first `NOT`.
   */
  lemma {:induction false} DoubleNot(ts: seq<Token>, a: string)
    requires ts == [Token(Not, ""), Token(Not, ""), Token(Word, a), Token(End, "")]
    ensures OrExpr(ts, 0) == Parsed(Some(NotNode(None)), 1)
  {
    var t := Some(NotNode(None));
    assert PrimaryExpr(ts, 1) == Parsed(None, 1);
    assert NotExpr(ts, 0) == Parsed(t, 1);
    assert AndTail(ts, t, 1) == Parsed(t, 1);
    assert AndExpr(ts, 0) == Parsed(t, 1);
    assert OrTail(ts, t, 1) == Parsed(t, 1);
  }

  /** What follows a complete expression is left unread: `a b` parses as `a`. */
  lemma {:induction false} TrailingIgnored(ts: seq<Token>, a: string, b: string)
    requires ts == [Token(Word, a), Token(Word, b), Token(End, "")]
    ensures OrExpr(ts, 0) == Parsed(Some(WordNode(a)), 1)
  {
    WordPrimary(ts, 0);
    NoTail(ts, Some(WordNode(a)), 1);
    assert AndExpr(ts, 0) == Parsed(Some(WordNode(a)), 1);
  }

  /** A missing `)` is forgiven: `( a` parses as `a`, stopping at `END`. */
  lemma {:induction false} MissingParen(ts: seq<Token>, a: string)
    requires ts == [Token(LParen, ""), Token(Word, a), Token(End, "")]
    ensures OrExpr(ts, 0) == Parsed(Some(WordNode(a)), 2)
  {
    var wa := Some(WordNode(a));
    WordPrimary(ts, 1);
    NoTail(ts, wa, 2);
    assert AndExpr(ts, 1) == Parsed(wa, 2);
    assert OrExpr(ts, 1) == Parsed(wa, 2);
    assert PrimaryExpr(ts, 0) == Parsed(wa, 2);
    assert NotExpr(ts, 0) == Parsed(wa, 2);
    assert AndExpr(ts, 0) == Parsed(wa, 2);
  }

  /** The empty query has only the `END` token and parses to no tree. */
  lemma {:induction false} EmptyQuery()
    ensures Lex("") == [Token(End, "")]
    ensures ParseQuery("") == None
  {
    var ts := Lex("");
    assert ts == [Token(End, "")];
    assert PrimaryExpr(ts, 0) == Parsed(None, 0);
    assert NotExpr(ts, 0) == Parsed(None, 0);
    NoTail(ts, None, 0);
    assert AndExpr(ts, 0) == Parsed(None, 0);
  }

  /** `parse("love _OR_ Romeo _AND_ Juliet")` is `love OR (Romeo AND Juliet)`. */
  lemma {:induction false} ParseLoveOrRomeoAndJuliet(q: string)
    requires q == "love _OR_ Romeo _AND_ Juliet"
    ensures ParseQuery(q) ==
      Some(OrNode(Some(WordNode("love")), Some(AndNode(Some(WordNode("Romeo")), Some(WordNode("Juliet"))))))
  {
    assert q == "love" + " " + ("_" + "OR" + "_" + " " + ("Romeo" + " " + ("_" + "AND" + "_" + " " + "Juliet")));
    RomeoJulietPlain();
    LoveHatePlain();
    ThreeTokens("love", Or, "OR", "Romeo", And, "AND", "Juliet");
    AndBindsTighter(Lex(q), "love", "Romeo", "Juliet");
  }
}
