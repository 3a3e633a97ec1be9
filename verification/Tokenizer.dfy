/** Tokens, and the tokenizer derived from a grammar's symbols. Text is a sequence of characters. */
module Tokenizer {
  import opened Sorting

  datatype TokenKind = AtomToken | SymbolToken | EOFToken

  /** The character range [start, end). */
  datatype Span = Span(start: nat, end: nat)

  datatype Token = Token(kind: TokenKind, text: string, span: Span)

  /** What the grammar looks tokens up by: everything but their place. */
  datatype TokenKey = TokenKey(kind: TokenKind, text: string)

  function KeyForToken(t: Token): TokenKey { TokenKey(t.kind, t.text) }

  datatype Cause =
    | UnexpectedEOF
    | UnexpectedToken
    | UnrecognizedSymbol(leading: char)
    | MissingToken(expected: string)
    | ExpectedToken(got: string, wanted: string)

  /** progress counts the tokens consumed when the error occurred. */
  datatype ParseError = ParseError(span: Span, cause: Cause, progress: nat)

  datatype Lexed = Tokens(tokens: seq<Token>) | LexError(error: ParseError)

  /** Symbols, longest first, and the characters that start one. */
  datatype Table = Table(symbols: seq<string>, leading: set<char>)

  /** `unicode.IsSpace`. */
  predicate IsSpace(c: char) {
    || '\t' <= c <= '\r' || c == ' ' || c == '\U{85}' || c == '\U{A0}' || c == '\U{1680}'
    || '\U{2000}' <= c <= '\U{200A}' || c == '\U{2028}' || c == '\U{2029}' || c == '\U{202F}' || c == '\U{205F}'
    || c == '\U{3000}'
  }

  predicate NoSpace(s: string) {
    forall i :: 0 <= i < |s| ==> !IsSpace(s[i])
  }

  predicate LongestFirst(a: string, b: string) {
    if |a| != |b| then |a| > |b| else StringLe(a, b)
  }

  /** What newTokenizer establishes for the literals a grammar may contain. */
  ghost predicate ValidTable(t: Table) {
    && (forall i :: 0 <= i < |t.symbols| ==> t.symbols[i] != "" && NoSpace(t.symbols[i]))
    && (forall i, j :: 0 <= i < j < |t.symbols| ==> |t.symbols[i]| >= |t.symbols[j]|)
    && (forall c :: c in t.leading <==> exists s :: s in t.symbols && s != "" && s[0] == c)
  }

  /** The first symbol of the list that begins s, or "". */
  function MatchSymbol(symbols: seq<string>, s: string): (m: string)
    ensures m <= s
  {
    if |symbols| == 0 then "" else if symbols[0] <= s then symbols[0] else MatchSymbol(symbols[1..], s)
  }

  /** How many characters of s continue an atom. */
  function AtomTail(t: Table, s: string): (n: nat)
    ensures n <= |s|
  {
    if s == "" || IsSpace(s[0]) || MatchSymbol(t.symbols, s) != "" || s[0] in t.leading then 0
    else 1 + AtomTail(t, s[1..])
  }

  function Prepend(first: seq<Token>, rest: Lexed): Lexed {
    if rest.Tokens? then Tokens(first + rest.tokens) else rest
  }

  lemma PrependPrepend(a: seq<Token>, b: seq<Token>, rest: Lexed)
    ensures Prepend(a, Prepend(b, rest)) == Prepend(a + b, rest)
  {
    if rest.Tokens? { assert a + (b + rest.tokens) == (a + b) + rest.tokens; }
  }

  lemma PrependNothing(r: Lexed)
    ensures Prepend([], r) == r
  {
    if r.Tokens? { assert [] + r.tokens == r.tokens; }
  }

  lemma PrependError(first: seq<Token>, e: ParseError)
    ensures Prepend(first, LexError(e)) == LexError(e)
  {
  }

  lemma PrependTokens(first: seq<Token>, rest: seq<Token>)
    ensures Prepend(first, Tokens(rest)) == Tokens(first + rest)
  {
  }

  /** The tokens of s, which starts at offset off of the input. */
  function Lex(t: Table, s: string, off: nat): Lexed {
    if s == "" then Tokens([Token(EOFToken, "", Span(off, off))])
    else if IsSpace(s[0]) then Lex(t, s[1..], off + 1)
    else
      var symbol := MatchSymbol(t.symbols, s);
      if symbol != "" then
        Prepend([Token(SymbolToken, symbol, Span(off, off + |symbol|))], Lex(t, s[|symbol|..], off + |symbol|))
      else if s[0] in t.leading then
        LexError(ParseError(Span(off, off + 1), UnrecognizedSymbol(s[0]), 0))
      else
        var n := 1 + AtomTail(t, s[1..]);
        Prepend([Token(AtomToken, s[..n], Span(off, off + n))], Lex(t, s[n..], off + n))
  }

  // ---------------------------------------------------------------------------
  // The loops

  method NewTokenizer(symbols: seq<string>) returns (t: Table)
    requires forall i :: 0 <= i < |symbols| ==> symbols[i] != "" && NoSpace(symbols[i])
    ensures ValidTable(t)
    ensures forall s :: s in t.symbols <==> s in symbols
  {
    hide NoSpace, LongestFirst, Sort, Compact;
    NormalizeSymbols(symbols);
    var normalized := Compact(Sort(LongestFirst, symbols));
    hide SortedBy;
    assert forall i :: 0 <= i < |normalized| ==> normalized[i] in symbols;
    var leading: set<char> := {};
    for i := 0 to |normalized|
      invariant forall c :: c in leading <==> exists s :: s in normalized[..i] && s != "" && s[0] == c
    {
      assert normalized[..i + 1] == normalized[..i] + [normalized[i]];
      leading := leading + {normalized[i][0]};
    }
    assert normalized[..|normalized|] == normalized;
    t := Table(normalized, leading);
  }

  /** Sorting and compacting the symbols loses none and puts longer ones first. */
  lemma NormalizeSymbols(symbols: seq<string>)
    ensures var normalized := Compact(Sort(LongestFirst, symbols));
      && (forall s :: s in normalized <==> s in symbols)
      && (forall i, j :: 0 <= i < j < |normalized| ==> |normalized[i]| >= |normalized[j]|)
  {
    hide Sort, Compact;
    var sorted := Sort(LongestFirst, symbols);
    LongestFirstOrdering();
    SortSorts(LongestFirst, symbols);
    SortElements(LongestFirst, symbols);
    CompactElements(sorted);
    LongestFirstNoTies(sorted);
    CompactSorted(LongestFirst, sorted);
    hide StringLe;
    var normalized := Compact(sorted);
    forall i, j | 0 <= i < j < |normalized| ensures |normalized[i]| >= |normalized[j]| {
      assert LongestFirst(normalized[i], normalized[j]);
    }
  }

  lemma LongestFirstOrdering()
    ensures Ordering(LongestFirst)
  {
    StringOrdering();
  }

  lemma LongestFirstNoTies(s: seq<string>)
    ensures NoTies(LongestFirst, s)
  {
    forall a, b | a in s && b in s && LongestFirst(a, b) && LongestFirst(b, a) ensures a == b {
      StringAntisymmetric(a, b);
    }
  }

  lemma LexSpaceAt(t: Table, input: string, index: nat)
    requires index < |input| && IsSpace(input[index])
    ensures Lex(t, input[index..], index) == Lex(t, input[index + 1..], index + 1)
  {
    hide IsSpace;
    assert input[index..][1..] == input[index + 1..];
  }

  lemma LexSymbolAt(t: Table, input: string, index: nat, token: Token)
    requires index < |input| && !IsSpace(input[index])
    requires token.text == MatchSymbol(t.symbols, input[index..]) && token.text != ""
    requires token.kind.SymbolToken? && token.span == Span(index, index + |token.text|)
    ensures token.span.end <= |input|
    ensures Lex(t, input[index..], index) == Prepend([token], Lex(t, input[token.span.end..], token.span.end))
  {
    hide IsSpace;
    assert input[index..][|token.text|..] == input[token.span.end..];
  }

  lemma LexErrorAt(t: Table, input: string, index: nat)
    requires index < |input| && !IsSpace(input[index]) && input[index] in t.leading
    requires MatchSymbol(t.symbols, input[index..]) == ""
    ensures Lex(t, input[index..], index) ==
            LexError(ParseError(Span(index, index + 1), UnrecognizedSymbol(input[index]), 0))
  {
    hide IsSpace;
  }

  lemma LexAtomAt(t: Table, input: string, index: nat, token: Token)
    requires index < |input| && !IsSpace(input[index]) && input[index] !in t.leading
    requires MatchSymbol(t.symbols, input[index..]) == ""
    requires token.span == Span(index, index + 1 + AtomTail(t, input[index + 1..]))
    requires token.kind.AtomToken? && token.text == input[index..token.span.end]
    ensures Lex(t, input[index..], index) == Prepend([token], Lex(t, input[token.span.end..], token.span.end))
  {
    hide IsSpace, AtomTail;
    var s, n := input[index..], |token.text|;
    assert s[1..] == input[index + 1..];
    assert s[..n] == token.text && s[n..] == input[token.span.end..];
  }

  method Tokenize(t: Table, input: string) returns (r: Lexed)
    ensures r == Lex(t, input, 0)
  {
    hide *;
    PrependNothing(Lex(t, input, 0));
    var tokens: seq<Token> := [];
    var index := 0;
    assert input[0..] == input;
    while index < |input|
      invariant index <= |input|
      invariant Prepend(tokens, Lex(t, input[index..], index)) == Lex(t, input, 0)
    {
      if IsSpace(input[index]) {
        LexSpaceAt(t, input, index);
        index := index + 1;
        continue;
      }
      var symbol := MatchSymbol(t.symbols, input[index..]);
      if symbol != "" {
        var token := Token(SymbolToken, symbol, Span(index, index + |symbol|));
        LexSymbolAt(t, input, index, token);
        PrependPrepend(tokens, [token], Lex(t, input[token.span.end..], token.span.end));
        tokens := tokens + [token];
        index := token.span.end;
        continue;
      }
      if input[index] in t.leading {
        var error := ParseError(Span(index, index + 1), UnrecognizedSymbol(input[index]), 0);
        LexErrorAt(t, input, index);
        PrependError(tokens, error);
        return LexError(error);
      }
      var start := index;
      index := AtomEnd(t, input, start);
      var token := Token(AtomToken, input[start..index], Span(start, index));
      LexAtomAt(t, input, start, token);
      PrependPrepend(tokens, [token], Lex(t, input[index..], index));
      tokens := tokens + [token];
    }
    LexEnd(t, input);
    PrependTokens(tokens, [Token(EOFToken, "", Span(|input|, |input|))]);
    r := Tokens(tokens + [Token(EOFToken, "", Span(|input|, |input|))]);
  }

  lemma LexEnd(t: Table, input: string)
    ensures Lex(t, input[|input|..], |input|) == Tokens([Token(EOFToken, "", Span(|input|, |input|))])
  {
  }

  /** The inner loop: the end of the atom that starts at start. */
  method AtomEnd(t: Table, input: string, start: nat) returns (index: nat)
    requires start < |input|
    ensures index == start + 1 + AtomTail(t, input[start + 1..])
  {
    hide IsSpace;
    index := start + 1;
    while index < |input|
      invariant start < index <= |input|
      invariant AtomTail(t, input[start + 1..]) == index - start - 1 + AtomTail(t, input[index..])
    {
      assert input[index..][1..] == input[index + 1..];
      if IsSpace(input[index]) { break; }
      if MatchSymbol(t.symbols, input[index..]) != "" || input[index] in t.leading { break; }
      index := index + 1;
    }
  }

  // ---------------------------------------------------------------------------
  // Tokenizing is lossless and maximal

  lemma {:induction false} MatchSymbolLongest(symbols: seq<string>, s: string)
    requires forall i :: 0 <= i < |symbols| ==> symbols[i] != ""
    requires forall i, j :: 0 <= i < j < |symbols| ==> |symbols[i]| >= |symbols[j]|
    ensures var m := MatchSymbol(symbols, s);
      && (m != "" ==> m in symbols && m <= s)
      && (forall i :: 0 <= i < |symbols| && symbols[i] <= s ==> m != "" && |symbols[i]| <= |m|)
  {
    if |symbols| > 0 && !(symbols[0] <= s) {
      MatchSymbolLongest(symbols[1..], s);
      assert forall i :: 1 <= i < |symbols| ==> symbols[i] == symbols[1..][i - 1];
    }
  }

  /** Position k stops the tokenizer: a character that begins some symbol, where no symbol stands. */
  predicate Unrecognized(t: Table, input: string, k: nat) {
    && k < |input| && !IsSpace(input[k]) && input[k] in t.leading
    && forall i :: 0 <= i < |t.symbols| ==> !(t.symbols[i] <= input[k..])
  }

  lemma {:induction false} NoMatch(symbols: seq<string>, s: string)
    requires forall i :: 0 <= i < |symbols| ==> symbols[i] != ""
    ensures MatchSymbol(symbols, s) == "" <==> forall i :: 0 <= i < |symbols| ==> !(symbols[i] <= s)
  {
    if |symbols| > 0 && !(symbols[0] <= s) {
      NoMatch(symbols[1..], s);
      assert forall i :: 1 <= i < |symbols| ==> symbols[i] == symbols[1..][i - 1];
    }
  }

  /** The only failure is an unrecognized symbol, reported at its first character. */
  lemma {:induction false} LexFails(t: Table, input: string, from: nat)
    requires ValidTable(t) && from <= |input| && Lex(t, input[from..], from).LexError?
    ensures var e := Lex(t, input[from..], from).error;
      && from <= e.span.start && Unrecognized(t, input, e.span.start) && e.span.end == e.span.start + 1
      && e.cause == UnrecognizedSymbol(input[e.span.start]) && e.progress == 0
    decreases |input| - from
  {
    hide IsSpace, AtomTail, ValidTable;
    var s := input[from..];
    if s != "" {
      var m := MatchSymbol(t.symbols, s);
      if IsSpace(s[0]) {
        assert s[1..] == input[from + 1..];
        LexFails(t, input, from + 1);
      } else if m != "" {
        assert s[|m|..] == input[from + |m|..];
        LexFails(t, input, from + |m|);
      } else if s[0] in t.leading {
        assert forall i :: 0 <= i < |t.symbols| ==> t.symbols[i] != "" by { SymbolsNonEmpty(t); }
        NoMatch(t.symbols, s);
      } else {
        var n := 1 + AtomTail(t, s[1..]);
        assert s[n..] == input[from + n..];
        LexFails(t, input, from + n);
      }
    }
  }

  lemma SymbolsNonEmpty(t: Table)
    requires ValidTable(t)
    ensures forall i :: 0 <= i < |t.symbols| ==> t.symbols[i] != ""
  {
  }

  /** Two valid tables of the same symbols. */
  ghost predicate SameSymbols(t: Table, u: Table) {
    ValidTable(t) && ValidTable(u) && forall s :: s in t.symbols <==> s in u.symbols
  }

  lemma MatchBySet(t: Table, u: Table, s: string)
    requires SameSymbols(t, u)
    ensures MatchSymbol(t.symbols, s) == MatchSymbol(u.symbols, s)
  {
    MatchSymbolLongest(t.symbols, s);
    MatchSymbolLongest(u.symbols, s);
    var m, n := MatchSymbol(t.symbols, s), MatchSymbol(u.symbols, s);
    hide MatchSymbol, NoSpace;
    if m != "" {
      var i :| 0 <= i < |u.symbols| && u.symbols[i] == m;
      assert |m| <= |n|;
    }
    if n != "" {
      var i :| 0 <= i < |t.symbols| && t.symbols[i] == n;
      assert |n| <= |m|;
    }
    assert m == s[..|m|] && n == s[..|n|];
  }

  lemma {:induction false} TailBySet(t: Table, u: Table, s: string)
    requires SameSymbols(t, u)
    ensures AtomTail(t, s) == AtomTail(u, s)
  {
    if s != "" {
      MatchBySet(t, u, s);
      TailBySet(t, u, s[1..]);
      assert s[0] in t.leading <==> s[0] in u.leading;
      hide SameSymbols, MatchSymbol, IsSpace;
    }
  }

  /** Tokenizing depends on the set of symbols alone. */
  lemma {:induction false} LexBySet(t: Table, u: Table, s: string, off: nat)
    requires SameSymbols(t, u)
    ensures Lex(t, s, off) == Lex(u, s, off)
    decreases |s|
  {
    hide *;
    if s != "" {
      LeadingBySet(t, u, s[0]);
      MatchBySet(t, u, s);
      TailBySet(t, u, s[1..]);
      var m, n := MatchSymbol(t.symbols, s), 1 + AtomTail(t, s[1..]);
      LexBySet(t, u, s[1..], off + 1);
      LexBySet(t, u, s[n..], off + n);
      if m != "" { LexBySet(t, u, s[|m|..], off + |m|); }
      LexTogether(t, u, s, off);
    }
    LexNothing(t, u, off);
  }

  lemma LeadingBySet(t: Table, u: Table, c: char)
    requires SameSymbols(t, u)
    ensures c in t.leading <==> c in u.leading
  {
    hide NoSpace;
  }

  lemma LexNothing(t: Table, u: Table, off: nat)
    ensures Lex(t, "", off) == Lex(u, "", off)
  {
  }

  lemma LexTogether(t: Table, u: Table, s: string, off: nat)
    requires s != "" && (s[0] in t.leading <==> s[0] in u.leading)
    requires MatchSymbol(t.symbols, s) == MatchSymbol(u.symbols, s) && AtomTail(t, s[1..]) == AtomTail(u, s[1..])
    requires Lex(t, s[1..], off + 1) == Lex(u, s[1..], off + 1)
    requires var m := MatchSymbol(t.symbols, s); m != "" ==> Lex(t, s[|m|..], off + |m|) == Lex(u, s[|m|..], off + |m|)
    requires var n := 1 + AtomTail(t, s[1..]); Lex(t, s[n..], off + n) == Lex(u, s[n..], off + n)
    ensures Lex(t, s, off) == Lex(u, s, off)
  {
    hide MatchSymbol, AtomTail, IsSpace, Prepend;
  }

  /** No character of s can start a symbol. */
  predicate Unreserved(t: Table, s: string) {
    forall i :: 0 <= i < |s| ==> s[i] !in t.leading
  }

  /** The atom or symbol could stand alone. */
  ghost predicate Standalone(t: Table, k: TokenKey) {
    match k.kind
    case SymbolToken => k.text in t.symbols
    case AtomToken => k.text != "" && NoSpace(k.text) && Unreserved(t, k.text)
    case EOFToken => false
  }

  /** s begins with something that ends an atom. */
  predicate Delimited(t: Table, s: string) {
    s == "" || IsSpace(s[0]) || s[0] in t.leading
  }

  /** tok is a maximal token of the input at its span. */
  ghost predicate Faithful(t: Table, input: string, tok: Token) {
    && tok.span.start < tok.span.end <= |input|
    && tok.text == input[tok.span.start..tok.span.end]
    && Standalone(t, KeyForToken(tok))
    && (tok.kind.SymbolToken? ==>
      forall i :: 0 <= i < |t.symbols| && t.symbols[i] <= input[tok.span.start..] ==> |t.symbols[i]| <= |tok.text|)
    && (tok.kind.AtomToken? ==> Delimited(t, input[tok.span.end..]))
  }

  function EndBefore(tokens: seq<Token>, k: nat, from: nat): nat
    requires k <= |tokens|
  {
    if k == 0 then from else tokens[k - 1].span.end
  }

  /** Only whitespace lies between two offsets. */
  ghost predicate Blank(input: string, a: nat, b: nat) {
    a <= b <= |input| && forall p :: a <= p < b ==> IsSpace(input[p])
  }

  /** The tokens from offset `from` on: in order, disjoint, covering everything but whitespace, EOF last. */
  ghost predicate Lossless(t: Table, input: string, from: nat, tokens: seq<Token>) {
    && |tokens| > 0
    && tokens[|tokens| - 1] == Token(EOFToken, "", Span(|input|, |input|))
    && (forall k :: 0 <= k < |tokens| - 1 ==> Faithful(t, input, tokens[k]))
    && (forall k :: 0 <= k < |tokens| ==> Blank(input, EndBefore(tokens, k, from), tokens[k].span.start))
  }

  lemma {:induction false} AtomTailSpec(t: Table, s: string)
    requires ValidTable(t)
    ensures var n := AtomTail(t, s);
      NoSpace(s[..n]) && Unreserved(t, s[..n]) && Delimited(t, s[n..])
  {
    hide IsSpace;
    if s == "" || IsSpace(s[0]) {
    } else if MatchSymbol(t.symbols, s) != "" {
      MatchSymbolLongest(t.symbols, s);
      assert s[0] in t.leading;
    } else if s[0] !in t.leading {
      AtomTailSpec(t, s[1..]);
      var n := AtomTail(t, s);
      assert s[..n] == [s[0]] + s[1..][..n - 1];
      assert s[n..] == s[1..][n - 1..];
    }
  }

  lemma LosslessCons(t: Table, input: string, from: nat, tok: Token, rest: seq<Token>)
    requires Faithful(t, input, tok) && tok.span.start == from && Lossless(t, input, tok.span.end, rest)
    ensures Lossless(t, input, from, [tok] + rest)
  {
    hide Faithful, IsSpace;
    var all := [tok] + rest;
    assert Faithful(t, input, tok);
    forall k | 0 <= k < |all| - 1 ensures Faithful(t, input, all[k]) {
      if k > 0 { assert all[k] == rest[k - 1]; }
    }
    forall k | 0 <= k < |all| ensures Blank(input, EndBefore(all, k, from), all[k].span.start) {
      if k > 0 {
        assert all[k] == rest[k - 1] && EndBefore(all, k, from) == EndBefore(rest, k - 1, tok.span.end);
      } else {
        FaithfulInside(t, input, tok);
      }
    }
  }

  lemma FaithfulInside(t: Table, input: string, tok: Token)
    requires Faithful(t, input, tok)
    ensures tok.span.start < tok.span.end <= |input|
  {
  }

  /** What Lex does where s is not blank: one token, then the rest. */
  lemma LexStep(t: Table, input: string, from: nat) returns (tok: Token)
    requires ValidTable(t) && from < |input| && !IsSpace(input[from]) && Lex(t, input[from..], from).Tokens?
    ensures Faithful(t, input, tok) && tok.span.start == from
    ensures Lex(t, input[tok.span.end..], tok.span.end).Tokens?
    ensures Lex(t, input[from..], from).tokens == [tok] + Lex(t, input[tok.span.end..], tok.span.end).tokens
  {
    hide IsSpace, AtomTail, MatchSymbol, Faithful, Lex, ValidTable;
    var s := input[from..];
    var symbol := MatchSymbol(t.symbols, s);
    if symbol != "" {
      tok := Token(SymbolToken, symbol, Span(from, from + |symbol|));
      LexSymbolAt(t, input, from, tok);
      SymbolIsFaithful(t, input, tok);
    } else {
      if input[from] in t.leading { LexErrorAt(t, input, from); }
      assert s[1..] == input[from + 1..];
      var end := from + 1 + AtomTail(t, input[from + 1..]);
      tok := Token(AtomToken, input[from..end], Span(from, end));
      LexAtomAt(t, input, from, tok);
      assert s[..end - from] == input[from..end];
      AtomIsFaithful(t, input, tok);
    }
  }

  lemma SymbolIsFaithful(t: Table, input: string, tok: Token)
    requires ValidTable(t) && tok.span.start < |input| && tok.kind.SymbolToken? && tok.text != ""
    requires tok.text == MatchSymbol(t.symbols, input[tok.span.start..])
    requires tok.span.end == tok.span.start + |tok.text|
    ensures Faithful(t, input, tok)
  {
    hide NoSpace, MatchSymbol;
    MatchSymbolLongest(t.symbols, input[tok.span.start..]);
  }

  lemma {:induction false} LexLossless(t: Table, input: string, from: nat)
    requires ValidTable(t) && from <= |input| && Lex(t, input[from..], from).Tokens?
    ensures Lossless(t, input, from, Lex(t, input[from..], from).tokens)
    decreases |input| - from
  {
    hide IsSpace, Faithful, AtomTail, MatchSymbol;
    var s := input[from..];
    if s == "" {
    } else if IsSpace(s[0]) {
      assert s[1..] == input[from + 1..];
      LexLossless(t, input, from + 1);
      SpaceBefore(t, input, from, Lex(t, s, from).tokens);
    } else {
      var tok := LexStep(t, input, from);
      FaithfulInside(t, input, tok);
      hide Lex, Lossless, ValidTable;
      LexLossless(t, input, tok.span.end);
      LosslessCons(t, input, from, tok, Lex(t, input[tok.span.end..], tok.span.end).tokens);
    }
  }

  lemma ConsPlain(t: Table, c: char, tail: string)
    requires !IsSpace(c) && c !in t.leading && NoSpace(tail) && Unreserved(t, tail)
    ensures NoSpace([c] + tail) && Unreserved(t, [c] + tail)
  {
    hide IsSpace;
  }

  lemma AtomStandsAlone(t: Table, s: string)
    requires ValidTable(t) && s != "" && !IsSpace(s[0]) && s[0] !in t.leading
    ensures var n := 1 + AtomTail(t, s[1..]);
      Standalone(t, TokenKey(AtomToken, s[..n])) && Delimited(t, s[n..])
  {
    var n := 1 + AtomTail(t, s[1..]);
    AtomTailSpec(t, s[1..]);
    hide IsSpace, AtomTail, ValidTable, NoSpace, Unreserved, Delimited;
    ConsPlain(t, s[0], s[1..][..n - 1]);
    assert s[..n] == [s[0]] + s[1..][..n - 1];
    assert s[n..] == s[1..][n - 1..];
  }

  lemma AtomIsFaithful(t: Table, input: string, tok: Token)
    requires ValidTable(t) && tok.span.start < |input| && tok.kind.AtomToken?
    requires var s := input[tok.span.start..]; var n := 1 + AtomTail(t, s[1..]);
      !IsSpace(s[0]) && s[0] !in t.leading && tok.text == s[..n] && tok.span.end == tok.span.start + n
    ensures Faithful(t, input, tok)
  {
    hide IsSpace, AtomTail, ValidTable, Standalone, Delimited;
    var s := input[tok.span.start..];
    AtomStandsAlone(t, s);
    assert s[|tok.text|..] == input[tok.span.end..];
  }

  lemma SpaceBefore(t: Table, input: string, from: nat, tokens: seq<Token>)
    requires from < |input| && IsSpace(input[from]) && Lossless(t, input, from + 1, tokens)
    ensures Lossless(t, input, from, tokens)
  {
    hide IsSpace, Faithful;
    assert Blank(input, EndBefore(tokens, 0, from + 1), tokens[0].span.start);
    forall k | 0 <= k < |tokens| ensures Blank(input, EndBefore(tokens, k, from), tokens[k].span.start) {
      assert Blank(input, EndBefore(tokens, k, from + 1), tokens[k].span.start);
    }
  }

  /** tokenize loses nothing but whitespace, and every token is maximal. */
  lemma TokenizeIsLossless(t: Table, input: string)
    requires ValidTable(t) && Lex(t, input, 0).Tokens?
    ensures Lossless(t, input, 0, Lex(t, input, 0).tokens)
  {
    assert input[0..] == input;
    LexLossless(t, input, 0);
  }

  /** Spans increase and are disjoint. */
  lemma {:induction false} SpansIncrease(t: Table, input: string, from: nat, tokens: seq<Token>, a: nat, b: nat)
    requires Lossless(t, input, from, tokens) && a < b < |tokens|
    ensures tokens[a].span.end <= tokens[b].span.start
    decreases b - a
  {
    hide IsSpace, Faithful;
    assert Blank(input, EndBefore(tokens, b, from), tokens[b].span.start);
    if a < b - 1 {
      FaithfulInside(t, input, tokens[b - 1]);
      hide Lossless;
      SpansIncrease(t, input, from, tokens, a, b - 1);
    }
  }

  // ---------------------------------------------------------------------------
  // Composing token texts

  lemma LexSpace(t: Table, c: char, rest: string, off: nat)
    requires IsSpace(c)
    ensures Lex(t, [c] + rest, off) == Lex(t, rest, off + 1)
  {
    assert ([c] + rest)[1..] == rest;
  }

  lemma LexSymbol(t: Table, symbol: string, rest: string, off: nat)
    requires ValidTable(t) && symbol in t.symbols
    requires forall i :: 0 <= i < |t.symbols| && t.symbols[i] <= symbol + rest ==> |t.symbols[i]| <= |symbol|
    ensures Lex(t, symbol + rest, off) ==
            Prepend([Token(SymbolToken, symbol, Span(off, off + |symbol|))], Lex(t, rest, off + |symbol|))
  {
    hide IsSpace;
    var s := symbol + rest;
    MatchSymbolLongest(t.symbols, s);
    assert symbol <= s;
    var m := MatchSymbol(t.symbols, s);
    assert m == symbol;
    assert NoSpace(symbol) && s[0] == symbol[0];
    assert s[|symbol|..] == rest;
  }

  lemma {:induction false} AtomTailExact(t: Table, atom: string, rest: string)
    requires ValidTable(t) && NoSpace(atom) && Unreserved(t, atom) && Delimited(t, rest)
    ensures AtomTail(t, atom + rest) == |atom|
  {
    hide IsSpace;
    var s := atom + rest;
    if atom == "" {
      assert s == rest;
    } else {
      NoSymbolHere(t, s);
      assert s[1..] == atom[1..] + rest;
      AtomTailExact(t, atom[1..], rest);
    }
  }

  lemma NoSymbolHere(t: Table, s: string)
    requires ValidTable(t) && s != "" && s[0] !in t.leading
    ensures MatchSymbol(t.symbols, s) == ""
  {
    MatchSymbolLongest(t.symbols, s);
    assert forall x :: x in t.symbols && x != "" ==> x[0] in t.leading;
  }

  lemma LexAtom(t: Table, atom: string, rest: string, off: nat)
    requires ValidTable(t) && Standalone(t, TokenKey(AtomToken, atom)) && Delimited(t, rest)
    ensures Lex(t, atom + rest, off) ==
            Prepend([Token(AtomToken, atom, Span(off, off + |atom|))], Lex(t, rest, off + |atom|))
  {
    hide IsSpace;
    var s := atom + rest;
    NoSymbolHere(t, s);
    assert s[1..] == atom[1..] + rest;
    AtomTailExact(t, atom[1..], rest);
    assert s[..|atom|] == atom && s[|atom|..] == rest;
  }

  function Keys(tokens: seq<Token>): seq<TokenKey> {
    seq(|tokens|, i requires 0 <= i < |tokens| => KeyForToken(tokens[i]))
  }

  function JoinSpaced(keys: seq<TokenKey>): string {
    if |keys| == 0 then "" else keys[0].text + (" " + JoinSpaced(keys[1..]))
  }

  lemma PrefixHasSpace(x: string, s: string, k: nat)
    requires x <= s && k < |x| && IsSpace(s[k])
    ensures !NoSpace(x)
  {
    assert x[k] == s[k];
  }

  /** A symbol followed by a space is matched as itself: no symbol contains a space. */
  lemma SpaceEndsSymbol(t: Table, symbol: string, rest: string)
    requires ValidTable(t)
    ensures forall i :: 0 <= i < |t.symbols| && t.symbols[i] <= symbol + (" " + rest) ==> |t.symbols[i]| <= |symbol|
  {
    var s := symbol + (" " + rest);
    assert s[|symbol|] == ' ' && IsSpace(' ');
    hide IsSpace, NoSpace;
    forall i | 0 <= i < |t.symbols| && t.symbols[i] <= s ensures |t.symbols[i]| <= |symbol| {
      if |t.symbols[i]| > |symbol| { PrefixHasSpace(t.symbols[i], s, |symbol|); }
    }
  }

  lemma LexSpaced(t: Table, k: TokenKey, rest: string, off: nat)
    requires ValidTable(t) && Standalone(t, k)
    ensures Lex(t, k.text + (" " + rest), off) ==
            Prepend([Token(k.kind, k.text, Span(off, off + |k.text|))], Lex(t, rest, off + |k.text| + 1))
  {
    assert IsSpace(' ');
    hide IsSpace, Lex, Prepend;
    LexSpace(t, ' ', rest, off + |k.text|);
    assert [' '] + rest == " " + rest;
    if k.kind.SymbolToken? {
      SpaceEndsSymbol(t, k.text, rest);
      LexSymbol(t, k.text, " " + rest, off);
    } else {
      LexAtom(t, k.text, " " + rest, off);
    }
  }

  lemma {:induction false} JoinedLexes(t: Table, keys: seq<TokenKey>, off: nat) returns (tokens: seq<Token>)
    requires ValidTable(t) && forall i :: 0 <= i < |keys| ==> Standalone(t, keys[i])
    ensures Lex(t, JoinSpaced(keys), off) == Tokens(tokens)
    ensures Keys(tokens) == keys + [TokenKey(EOFToken, "")]
    decreases keys
  {
    hide Standalone, ValidTable;
    if |keys| == 0 {
      tokens := [Token(EOFToken, "", Span(off, off))];
    } else {
      hide Lex;
      var k, rest := keys[0], JoinSpaced(keys[1..]);
      var tail := JoinedLexes(t, keys[1..], off + |k.text| + 1);
      LexSpaced(t, k, rest, off);
      tokens := [Token(k.kind, k.text, Span(off, off + |k.text|))] + tail;
      assert Keys(tokens) == [k] + Keys(tail);
      assert keys == [k] + keys[1..];
    }
  }

  lemma LosslessKinds(t: Table, input: string, from: nat, tokens: seq<Token>)
    requires Lossless(t, input, from, tokens)
    ensures |tokens| > 0 && tokens[|tokens| - 1].kind.EOFToken?
    ensures forall k :: 0 <= k < |tokens| - 1 ==> !tokens[k].kind.EOFToken?
  {
    hide Blank, NoSpace, Unreserved, Delimited;
    forall k | 0 <= k < |tokens| - 1 ensures !tokens[k].kind.EOFToken? {
      assert Faithful(t, input, tokens[k]);
    }
  }

  /** Tokenizing the space-joined texts of a token list gives back the same texts. */
  lemma RetokenizeStable(t: Table, input: string) returns (again: seq<Token>)
    requires ValidTable(t) && Lex(t, input, 0).Tokens?
    ensures var tokens := Lex(t, input, 0).tokens;
      && |tokens| > 0
      && Lex(t, JoinSpaced(Keys(tokens[..|tokens| - 1])), 0) == Tokens(again)
      && Keys(again) == Keys(tokens)
  {
    hide *;
    TokenizeIsLossless(t, input);
    var tokens := Lex(t, input, 0).tokens;
    LosslessKeys(t, input, tokens);
    again := JoinedLexes(t, Keys(tokens[..|tokens| - 1]), 0);
  }

  lemma LosslessKeys(t: Table, input: string, tokens: seq<Token>)
    requires Lossless(t, input, 0, tokens)
    ensures |tokens| > 0
    ensures var keys := Keys(tokens[..|tokens| - 1]);
      && (forall i :: 0 <= i < |keys| ==> Standalone(t, keys[i]))
      && Keys(tokens) == keys + [TokenKey(EOFToken, "")]
  {
    hide Standalone, Blank, Delimited;
    var keys := Keys(tokens[..|tokens| - 1]);
    forall i | 0 <= i < |keys| ensures Standalone(t, keys[i]) {
      assert Faithful(t, input, tokens[i]);
    }
  }
}
