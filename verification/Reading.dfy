/** How printed text tokenizes piece by piece, and how the parser steps over known tokens. */
module Reading {
  import opened Results
  import opened Tokenizer
  import opened Grammar
  import opened PrattSpec

  function A(text: string): TokenKey { TokenKey(AtomToken, text) }
  function S(text: string): TokenKey { TokenKey(SymbolToken, text) }

  /** Before rest, s tokenizes to the given keys, wherever it stands. */
  ghost predicate Reads(t: Table, s: string, keys: seq<TokenKey>, rest: string) {
    forall off: nat :: ReadsAt(t, s, keys, rest, off)
  }

  ghost predicate ReadsAt(t: Table, s: string, keys: seq<TokenKey>, rest: string, off: nat) {
    exists toks :: Lex(t, s + rest, off) == Prepend(toks, Lex(t, rest, off + |s|)) && Keys(toks) == keys
  }

  lemma ReadsConcat(t: Table, a: string, ka: seq<TokenKey>, b: string, kb: seq<TokenKey>, rest: string)
    requires Reads(t, a, ka, b + rest) && Reads(t, b, kb, rest)
    ensures Reads(t, a + b, ka + kb, rest)
  {
    hide Lex, Prepend;
    forall off: nat ensures ReadsAt(t, a + b, ka + kb, rest, off) {
      assert ReadsAt(t, a, ka, b + rest, off) && ReadsAt(t, b, kb, rest, off + |a|);
      var ta :| Lex(t, a + (b + rest), off) == Prepend(ta, Lex(t, b + rest, off + |a|)) && Keys(ta) == ka;
      var tb :| Lex(t, b + rest, off + |a|) == Prepend(tb, Lex(t, rest, off + |a| + |b|)) && Keys(tb) == kb;
      PrependPrepend(ta, tb, Lex(t, rest, off + |a| + |b|));
      assert a + (b + rest) == (a + b) + rest;
      assert Keys(ta + tb) == ka + kb;
    }
  }

  lemma ReadsSpace(t: Table, rest: string)
    ensures Reads(t, " ", [], rest)
  {
    assert IsSpace(' ');
    hide IsSpace, Lex;
    forall off: nat ensures ReadsAt(t, " ", [], rest, off) {
      LexSpace(t, ' ', rest, off);
      assert [' '] == " ";
      PrependNothing(Lex(t, rest, off + 1));
      assert Keys([]) == [];
    }
  }

  /** No declared symbol that begins symbol + rest is longer than symbol. */
  ghost predicate LongestAt(t: Table, symbol: string, rest: string) {
    forall i :: 0 <= i < |t.symbols| && t.symbols[i] <= symbol + rest ==> |t.symbols[i]| <= |symbol|
  }

  lemma ReadsSymbol(t: Table, symbol: string, rest: string)
    requires ValidTable(t) && symbol in t.symbols && LongestAt(t, symbol, rest)
    ensures Reads(t, symbol, [TokenKey(SymbolToken, symbol)], rest)
  {
    hide Lex, ValidTable;
    forall off: nat ensures ReadsAt(t, symbol, [TokenKey(SymbolToken, symbol)], rest, off) {
      LexSymbol(t, symbol, rest, off);
      assert Keys([Token(SymbolToken, symbol, Span(off, off + |symbol|))]) == [TokenKey(SymbolToken, symbol)];
    }
  }

  /** Different symbols start differently, so none is cut short. */
  ghost predicate DistinctStarts(symbols: seq<string>) {
    forall s, r :: s in symbols && r in symbols && s != "" && r != "" && s[0] == r[0] ==> s == r
  }

  lemma ReadsDistinct(t: Table, symbol: string, rest: string)
    requires ValidTable(t) && DistinctStarts(t.symbols) && symbol in t.symbols
    ensures Reads(t, symbol, [S(symbol)], rest)
  {
    hide Reads;
    forall i | 0 <= i < |t.symbols| && t.symbols[i] <= symbol + rest ensures |t.symbols[i]| <= |symbol| {
      assert t.symbols[i][0] == (symbol + rest)[0] == symbol[0];
    }
    ReadsSymbol(t, symbol, rest);
  }

  lemma ReadsAtom(t: Table, atom: string, rest: string)
    requires ValidTable(t) && Standalone(t, TokenKey(AtomToken, atom)) && Delimited(t, rest)
    ensures Reads(t, atom, [TokenKey(AtomToken, atom)], rest)
  {
    hide Lex, ValidTable, Standalone, Delimited;
    forall off: nat ensures ReadsAt(t, atom, [TokenKey(AtomToken, atom)], rest, off) {
      LexAtom(t, atom, rest, off);
      assert Keys([Token(AtomToken, atom, Span(off, off + |atom|))]) == [TokenKey(AtomToken, atom)];
    }
  }

  /** NewPratt's check of a keyword succeeds on text that can stand alone. */
  lemma KeywordIsAtom(t: Table, text: string)
    requires ValidTable(t) && Standalone(t, TokenKey(AtomToken, text))
    ensures OneAtom(t, text)
  {
    hide Standalone, ValidTable, Lex;
    LexAtom(t, text, "", 0);
    LexNothing(t, |text|);
    assert text + "" == text;
  }

  lemma LexNothing(t: Table, off: nat)
    ensures Lex(t, "", off) == Tokens([Token(EOFToken, "", Span(off, off))])
  {
  }

  /** Text that reads as keys up to its end tokenizes to a stream of those keys. */
  lemma ReadsWhole(t: Table, s: string, keys: seq<TokenKey>) returns (toks: seq<Token>)
    requires Reads(t, s, keys, "") && forall i :: 0 <= i < |keys| ==> !keys[i].kind.EOFToken?
    ensures Lex(t, s, 0) == Tokens(toks)
    ensures Stream(toks) && |toks| == |keys| + 1 && At(toks, 0, keys)
  {
    assert ReadsAt(t, s, keys, "", 0);
    var body :| Lex(t, s + "", 0) == Prepend(body, Lex(t, "", |s|)) && Keys(body) == keys;
    assert s + "" == s;
    toks := body + [Token(EOFToken, "", Span(|s|, |s|))];
    assert |body| == |keys| && forall i :: 0 <= i < |keys| ==> KeyForToken(body[i]) == keys[i];
  }

  // ---------------------------------------------------------------------------
  // Known tokens in a stream

  /** keys stand in the stream from position i on, before EOF. */
  ghost predicate At(toks: seq<Token>, i: nat, keys: seq<TokenKey>) {
    i + |keys| < |toks| && forall k :: 0 <= k < |keys| ==> KeyForToken(toks[i + k]) == keys[k]
  }

  lemma AtSplit(toks: seq<Token>, i: nat, a: seq<TokenKey>, b: seq<TokenKey>)
    requires At(toks, i, a + b)
    ensures At(toks, i, a) && At(toks, i + |a|, b)
  {
    assert forall k :: 0 <= k < |a| ==> (a + b)[k] == a[k];
    forall k | 0 <= k < |b| ensures KeyForToken(toks[i + |a| + k]) == b[k] {
      assert (a + b)[|a| + k] == b[k];
      assert KeyForToken(toks[i + (|a| + k)]) == (a + b)[|a| + k];
    }
  }

  lemma AtFirst(toks: seq<Token>, i: nat, keys: seq<TokenKey>)
    requires At(toks, i, keys) && |keys| > 0
    ensures i + 1 < |toks| && KeyForToken(toks[i]) == keys[0]
  {
    assert KeyForToken(toks[i + 0]) == keys[0];
  }

  lemma TailHole(g: Pratt, toks: seq<Token>, pos: nat, form: Rule, k: nat,
                 tokens: seq<Token>, args: seq<Tree>, span: Span, child: Tree, next: nat)
    requires Stream(toks) && pos < |toks| && k < |form.pattern| && form.pattern[k].Hole?
    requires ParseExpression(g, toks, pos, form.pattern[k].bindingPower) == Ok(child, next)
    ensures next < |toks| && ParseTail(g, toks, pos, form, k, tokens, args, span)
            == ParseTail(g, toks, next, form, k + 1, tokens, args + [child], FromTo(span, SpanOf(child)))
  {
    hide ParseExpression;
  }

  lemma TailLiteral(g: Pratt, toks: seq<Token>, pos: nat, form: Rule, k: nat,
                    tokens: seq<Token>, args: seq<Tree>, span: Span)
    requires Stream(toks) && pos + 1 < |toks| && k < |form.pattern| && !form.pattern[k].Hole?
    requires KeyForToken(toks[pos]) == KeyForPart(form.pattern[k])
    ensures ParseTail(g, toks, pos, form, k, tokens, args, span)
            == ParseTail(g, toks, pos + 1, form, k + 1, tokens + [toks[pos]], args, FromTo(span, toks[pos].span))
  {
    hide ParseExpression;
  }

  lemma TailMismatch(g: Pratt, toks: seq<Token>, pos: nat, form: Rule, k: nat,
                     tokens: seq<Token>, args: seq<Tree>, span: Span)
    requires Stream(toks) && pos < |toks| && k < |form.pattern| && !form.pattern[k].Hole?
    requires KeyForToken(toks[pos]) != KeyForPart(form.pattern[k])
    ensures ParseTail(g, toks, pos, form, k, tokens, args, span).Err?
  {
    hide ParseExpression;
  }

  lemma TailDone(g: Pratt, toks: seq<Token>, pos: nat, form: Rule, tokens: seq<Token>, args: seq<Tree>, span: Span)
    requires Stream(toks) && pos < |toks|
    ensures ParseTail(g, toks, pos, form, |form.pattern|, tokens, args, span) ==
      Ok(Op(form.id, tokens, args, span), pos)
  {
  }

  /** A hole that cannot be filled fails the form. */
  lemma TailHoleFails(g: Pratt, toks: seq<Token>, pos: nat, form: Rule, k: nat,
                      tokens: seq<Token>, args: seq<Tree>, span: Span)
    requires Stream(toks) && pos < |toks| && k < |form.pattern| && form.pattern[k].Hole?
    requires ParseExpression(g, toks, pos, form.pattern[k].bindingPower).Err?
    ensures ParseTail(g, toks, pos, form, k, tokens, args, span).Err?
  {
    hide ParseExpression;
  }

  /** token token token. */
  lemma LiteralTail(g: Pratt, toks: seq<Token>, i: nat, form: Rule) returns (tree: Tree)
    requires Stream(toks) && i + 3 < |toks| && |form.pattern| == 3 && !form.pattern[1].Hole? && !form.pattern[2].Hole?
    requires KeyForToken(toks[i + 1]) == KeyForPart(form.pattern[1])
    requires KeyForToken(toks[i + 2]) == KeyForPart(form.pattern[2])
    ensures ParseTail(g, toks, i + 1, form, 1, [toks[i]], [], toks[i].span) == Ok(tree, i + 3)
    ensures tree.Op? && tree.id == form.id && tree.args == []
  {
    hide ParseTail;
    var first := toks[i];
    TailLiteral(g, toks, i + 1, form, 1, [first], [], first.span);
    var span := FromTo(first.span, toks[i + 1].span);
    TailLiteral(g, toks, i + 2, form, 2, [first] + [toks[i + 1]], [], span);
    var tokens, span2 := [first] + [toks[i + 1]] + [toks[i + 2]], FromTo(span, toks[i + 2].span);
    TailDone(g, toks, i + 3, form, tokens, [], span2);
    tree := Op(form.id, tokens, [], span2);
  }

  /** token operand. */
  lemma PrefixTail(g: Pratt, toks: seq<Token>, i: nat, form: Rule, operand: Tree, j: nat) returns (tree: Tree)
    requires Stream(toks) && i + 1 < |toks| && |form.pattern| == 2 && form.pattern[1].Hole?
    requires ParseExpression(g, toks, i + 1, form.pattern[1].bindingPower) == Ok(operand, j)
    ensures ParseTail(g, toks, i + 1, form, 1, [toks[i]], [], toks[i].span) == Ok(tree, j)
    ensures tree.Op? && tree.id == form.id && tree.tokens == [toks[i]] && tree.args == [operand]
  {
    hide ParseExpression, ParseTail;
    var first := toks[i];
    TailHole(g, toks, i + 1, form, 1, [first], [], first.span, operand, j);
    var span := FromTo(first.span, SpanOf(operand));
    TailDone(g, toks, j, form, [first], [] + [operand], span);
    tree := Op(form.id, [first], [] + [operand], span);
    assert [] + [operand] == [operand];
  }

  /** token operand token. */
  lemma GroupTail(g: Pratt, toks: seq<Token>, i: nat, form: Rule, operand: Tree, j: nat) returns (tree: Tree)
    requires Stream(toks) && i + 1 < |toks| && |form.pattern| == 3 && form.pattern[1].Hole? && !form.pattern[2].Hole?
    requires ParseExpression(g, toks, i + 1, form.pattern[1].bindingPower) == Ok(operand, j)
    requires j + 1 < |toks| && KeyForToken(toks[j]) == KeyForPart(form.pattern[2])
    ensures ParseTail(g, toks, i + 1, form, 1, [toks[i]], [], toks[i].span) == Ok(tree, j + 1)
    ensures tree.Op? && tree.id == form.id && tree.args == [operand]
  {
    hide ParseExpression, ParseTail;
    var first := toks[i];
    TailHole(g, toks, i + 1, form, 1, [first], [], first.span, operand, j);
    var span := FromTo(first.span, SpanOf(operand));
    TailLiteral(g, toks, j, form, 2, [first], [] + [operand], span);
    var span2 := FromTo(span, toks[j].span);
    TailDone(g, toks, j + 1, form, [first] + [toks[j]], [] + [operand], span2);
    tree := Op(form.id, [first] + [toks[j]], [] + [operand], span2);
    assert [] + [operand] == [operand];
  }

  /** token token operand token. */
  lemma CallTail(g: Pratt, toks: seq<Token>, i: nat, form: Rule, operand: Tree, j: nat) returns (tree: Tree)
    requires Stream(toks) && i + 2 < |toks| && |form.pattern| == 4
    requires !form.pattern[1].Hole? && form.pattern[2].Hole? && !form.pattern[3].Hole?
    requires KeyForToken(toks[i + 1]) == KeyForPart(form.pattern[1])
    requires ParseExpression(g, toks, i + 2, form.pattern[2].bindingPower) == Ok(operand, j)
    requires j + 1 < |toks| && KeyForToken(toks[j]) == KeyForPart(form.pattern[3])
    ensures ParseTail(g, toks, i + 1, form, 1, [toks[i]], [], toks[i].span) == Ok(tree, j + 1)
    ensures tree.Op? && tree.id == form.id && tree.args == [operand]
  {
    hide ParseExpression, ParseTail;
    var first := toks[i];
    TailLiteral(g, toks, i + 1, form, 1, [first], [], first.span);
    var tokens, span := [first] + [toks[i + 1]], FromTo(first.span, toks[i + 1].span);
    TailHole(g, toks, i + 2, form, 2, tokens, [], span, operand, j);
    var span2 := FromTo(span, SpanOf(operand));
    TailLiteral(g, toks, j, form, 3, tokens, [] + [operand], span2);
    var span3 := FromTo(span2, toks[j].span);
    TailDone(g, toks, j + 1, form, tokens + [toks[j]], [] + [operand], span3);
    tree := Op(form.id, tokens + [toks[j]], [] + [operand], span3);
    assert [] + [operand] == [operand];
  }

  /** left token right. */
  lemma InfixTail(g: Pratt, toks: seq<Token>, form: Rule, left: Tree, m: nat, right: Tree, j: nat) returns (tree: Tree)
    requires Stream(toks) && m + 1 < |toks|
    requires |form.pattern| == 3 && !form.pattern[1].Hole? && form.pattern[2].Hole?
    requires KeyForToken(toks[m]) == KeyForPart(form.pattern[1])
    requires ParseExpression(g, toks, m + 1, form.pattern[2].bindingPower) == Ok(right, j)
    ensures ParseTail(g, toks, m, form, 1, [], [left], SpanOf(left)) == Ok(tree, j)
    ensures tree.Op? && tree.id == form.id && tree.args == [left, right]
  {
    hide ParseExpression, ParseTail;
    var span := FromTo(SpanOf(left), toks[m].span);
    TailLiteral(g, toks, m, form, 1, [], [left], SpanOf(left));
    TailHole(g, toks, m + 1, form, 2, [] + [toks[m]], [left], span, right, j);
    var span2 := FromTo(span, SpanOf(right));
    TailDone(g, toks, j, form, [] + [toks[m]], [left] + [right], span2);
    tree := Op(form.id, [] + [toks[m]], [left] + [right], span2);
    assert [left] + [right] == [left, right];
  }

  /** The first alternative is taken when it succeeds. */
  lemma NullFirst(g: Pratt, toks: seq<Token>, pos: nat, token: Token, tree: Tree, next: nat)
    requires Stream(toks) && pos < |toks| && |NullRules(g.rules, KeyForToken(token))| > 0
    requires var form := NullRules(g.rules, KeyForToken(token))[0];
      ParseTail(g, toks, pos, form, 1, [token], [], token.span) == Ok(tree, next)
    ensures ParseNull(g, toks, pos, token) == Ok(tree, next)
  {
    hide ParseTail;
  }

  /** The second is tried from the same place when the first fails. */
  lemma NullSecond(g: Pratt, toks: seq<Token>, pos: nat, token: Token, tree: Tree, next: nat)
    requires Stream(toks) && pos < |toks| && |NullRules(g.rules, KeyForToken(token))| > 1
    requires var forms := NullRules(g.rules, KeyForToken(token));
      && ParseTail(g, toks, pos, forms[0], 1, [token], [], token.span).Err?
      && ParseTail(g, toks, pos, forms[1], 1, [token], [], token.span) == Ok(tree, next)
    ensures ParseNull(g, toks, pos, token) == Ok(tree, next)
  {
    hide ParseTail;
    var forms := NullRules(g.rules, KeyForToken(token));
    assert forms[1..][0] == forms[1];
    var r := ParseTail(g, toks, pos, forms[0], 1, [token], [], token.span);
    assert ParseNull(g, toks, pos, token) == TryNull(g, toks, pos, token, forms, None);
    assert TryNull(g, toks, pos, token, forms, None)
        == TryNull(g, toks, pos, token, forms[1..], Some(FartherError(None, r.error)));
  }

  lemma NullAtom(g: Pratt, toks: seq<Token>, pos: nat, token: Token)
    requires Stream(toks) && pos < |toks| && NullRules(g.rules, KeyForToken(token)) == [] && token.kind.AtomToken?
    ensures ParseNull(g, toks, pos, token) == Ok(Atom(token), pos)
  {
  }

  lemma ExpressionIsLoop(g: Pratt, toks: seq<Token>, pos: nat, minBindingPower: int, tree: Tree, next: nat)
    requires Stream(toks) && pos + 1 < |toks| && ParseNull(g, toks, pos + 1, toks[pos]) == Ok(tree, next)
    ensures next < |toks|
      && ParseExpression(g, toks, pos, minBindingPower) == LeftLoop(g, toks, next, minBindingPower, tree)
  {
    hide ParseNull, LeftLoop;
  }

  lemma LoopStops(g: Pratt, toks: seq<Token>, pos: nat, minBindingPower: int, tree: Tree)
    requires Stream(toks) && pos < |toks| && SelectLeftForms(g, toks[pos], minBindingPower) == []
    ensures LeftLoop(g, toks, pos, minBindingPower, tree) == Ok(tree, pos)
  {
  }

  /** The loop takes the first eligible form when it succeeds. */
  lemma LoopSteps(g: Pratt, toks: seq<Token>, pos: nat, minBindingPower: int, left: Tree, tree: Tree, next: nat)
    requires Stream(toks) && pos < |toks| && |SelectLeftForms(g, toks[pos], minBindingPower)| > 0
    requires var form := SelectLeftForms(g, toks[pos], minBindingPower)[0];
      ParseTail(g, toks, pos, form, 1, [], [left], SpanOf(left)) == Ok(tree, next)
    ensures next < |toks|
      && LeftLoop(g, toks, pos, minBindingPower, left) == LeftLoop(g, toks, next, minBindingPower, tree)
  {
    hide ParseTail, SelectLeftForms;
  }

  /** The last alternative failing fails them all. */
  lemma TryLastNull(g: Pratt, toks: seq<Token>, pos: nat, token: Token, forms: seq<Rule>, farthest: Option<ParseError>)
    requires Stream(toks) && pos < |toks| && |forms| == 1 && |forms[0].pattern| > 0
    requires ParseTail(g, toks, pos, forms[0], 1, [token], [], token.span).Err?
    ensures TryNull(g, toks, pos, token, forms, farthest).Err?
  {
    hide ParseTail;
    var r := ParseTail(g, toks, pos, forms[0], 1, [token], [], token.span);
    var far := Some(FartherError(farthest, r.error));
    assert TryNull(g, toks, pos, token, forms, farthest) == TryNull(g, toks, pos, token, forms[1..], far);
    assert |forms[1..]| == 0;
    assert TryNull(g, toks, pos, token, forms[1..], far) == Err(far.value);
  }

  lemma NullOneFails(g: Pratt, toks: seq<Token>, pos: nat, token: Token)
    requires Stream(toks) && pos < |toks| && |NullRules(g.rules, KeyForToken(token))| == 1
    requires ParseTail(g, toks, pos, NullRules(g.rules, KeyForToken(token))[0], 1, [token], [], token.span).Err?
    ensures ParseNull(g, toks, pos, token).Err?
  {
    hide ParseTail, TryNull;
    TryLastNull(g, toks, pos, token, NullRules(g.rules, KeyForToken(token)), None);
  }

  lemma NullTwoFail(g: Pratt, toks: seq<Token>, pos: nat, token: Token)
    requires Stream(toks) && pos < |toks| && |NullRules(g.rules, KeyForToken(token))| == 2
    requires var forms := NullRules(g.rules, KeyForToken(token));
      && ParseTail(g, toks, pos, forms[0], 1, [token], [], token.span).Err?
      && ParseTail(g, toks, pos, forms[1], 1, [token], [], token.span).Err?
    ensures ParseNull(g, toks, pos, token).Err?
  {
    hide ParseTail;
    var forms := NullRules(g.rules, KeyForToken(token));
    assert forms[1..][0] == forms[1];
    var far := Some(FartherError(None, ParseTail(g, toks, pos, forms[0], 1, [token], [], token.span).error));
    assert ParseNull(g, toks, pos, token) == TryNull(g, toks, pos, token, forms, None);
    assert TryNull(g, toks, pos, token, forms, None) == TryNull(g, toks, pos, token, forms[1..], far);
    TryLastNull(g, toks, pos, token, forms[1..], far);
  }

  lemma NullFailsExpression(g: Pratt, toks: seq<Token>, pos: nat, minBindingPower: int)
    requires Stream(toks) && pos + 1 < |toks| && ParseNull(g, toks, pos + 1, toks[pos]).Err?
    ensures ParseExpression(g, toks, pos, minBindingPower).Err?
  {
    hide ParseNull;
  }

  /** The loop takes the second eligible form when the first fails. */
  lemma LoopStepsSecond(g: Pratt, toks: seq<Token>, pos: nat, minBindingPower: int, left: Tree, tree: Tree, next: nat)
    requires Stream(toks) && pos < |toks| && |SelectLeftForms(g, toks[pos], minBindingPower)| == 2
    requires var forms := SelectLeftForms(g, toks[pos], minBindingPower);
      && ParseTail(g, toks, pos, forms[0], 1, [], [left], SpanOf(left)).Err?
      && ParseTail(g, toks, pos, forms[1], 1, [], [left], SpanOf(left)) == Ok(tree, next)
    ensures next < |toks|
      && LeftLoop(g, toks, pos, minBindingPower, left) == LeftLoop(g, toks, next, minBindingPower, tree)
  {
    hide ParseTail, SelectLeftForms;
    var forms := SelectLeftForms(g, toks[pos], minBindingPower);
    assert forms[1..][0] == forms[1];
    var r := ParseTail(g, toks, pos, forms[0], 1, [], [left], SpanOf(left));
    assert TryLeft(g, toks, pos, forms, left, None) ==
      TryLeft(g, toks, pos, forms[1..], left, Some(FartherError(None, r.error)));
  }

  lemma LoopFails(g: Pratt, toks: seq<Token>, pos: nat, minBindingPower: int, left: Tree)
    requires Stream(toks) && pos < |toks| && |SelectLeftForms(g, toks[pos], minBindingPower)| == 1
    requires var form := SelectLeftForms(g, toks[pos], minBindingPower)[0];
      ParseTail(g, toks, pos, form, 1, [], [left], SpanOf(left)).Err?
    ensures LeftLoop(g, toks, pos, minBindingPower, left).Err?
  {
    hide ParseTail, SelectLeftForms;
    var forms := SelectLeftForms(g, toks[pos], minBindingPower);
    var far := Some(FartherError(None, ParseTail(g, toks, pos, forms[0], 1, [], [left], SpanOf(left)).error));
    assert TryLeft(g, toks, pos, forms, left, None) == TryLeft(g, toks, pos, forms[1..], left, far);
    assert |forms[1..]| == 0;
    assert TryLeft(g, toks, pos, forms[1..], left, far) == Err(far.value);
  }

  // ---------------------------------------------------------------------------
  // Looking rules up in a list built by appending

  lemma NoRules(key: TokenKey)
    ensures NullRules([], key) == [] && LeftRules([], key) == [] && ImplicitRules([]) == []
  {
  }

  lemma NullSnoc(rules: seq<Rule>, r: Rule, key: TokenKey)
    ensures NullRules(rules + [r], key) ==
            NullRules(rules, key) + if IsNull(r) && KeyForPart(r.pattern[0]) == key then [r] else []
  {
    assert (rules + [r])[..|rules|] == rules;
  }

  lemma {:induction false} NullConcat(a: seq<Rule>, b: seq<Rule>, key: TokenKey)
    ensures NullRules(a + b, key) == NullRules(a, key) + NullRules(b, key)
  {
    if |b| == 0 {
      assert a + b == a;
    } else {
      var n, last := b[..|b| - 1], b[|b| - 1];
      NullConcat(a, n, key);
      NullSnoc(n, last, key);
      NullSnoc(a + n, last, key);
      assert b == n + [last] && a + b == (a + n) + [last];
    }
  }

  lemma {:induction false} NoNullRules(rules: seq<Rule>, key: TokenKey)
    requires forall i :: 0 <= i < |rules| ==> !IsNull(rules[i]) || KeyForPart(rules[i].pattern[0]) != key
    ensures NullRules(rules, key) == []
  {
    if |rules| > 0 { NoNullRules(rules[..|rules| - 1], key); }
  }

  lemma {:induction false} LeftConcat(a: seq<Rule>, b: seq<Rule>, key: TokenKey)
    ensures LeftRules(a + b, key) == LeftRules(a, key) + LeftRules(b, key)
  {
    if |b| == 0 {
      assert a + b == a;
    } else {
      var n, last := b[..|b| - 1], b[|b| - 1];
      LeftConcat(a, n, key);
      LeftSnoc(n, last, key);
      LeftSnoc(a + n, last, key);
      assert b == n + [last] && a + b == (a + n) + [last];
    }
  }

  lemma {:induction false} ImplicitConcat(a: seq<Rule>, b: seq<Rule>)
    ensures ImplicitRules(a + b) == ImplicitRules(a) + ImplicitRules(b)
  {
    if |b| == 0 {
      assert a + b == a;
    } else {
      var n, last := b[..|b| - 1], b[|b| - 1];
      ImplicitConcat(a, n);
      ImplicitSnoc(n, last);
      ImplicitSnoc(a + n, last);
      assert b == n + [last] && a + b == (a + n) + [last];
    }
  }

  /** Rules that start with a token extend nothing. */
  lemma {:induction false} NoLeftAmongNulls(rules: seq<Rule>, key: TokenKey)
    requires forall i :: 0 <= i < |rules| ==> IsNull(rules[i])
    ensures LeftRules(rules, key) == [] && ImplicitRules(rules) == []
  {
    if |rules| > 0 {
      NoLeftAmongNulls(rules[..|rules| - 1], key);
      assert IsNull(rules[|rules| - 1]);
    }
  }

  lemma EligibleOne(r: Rule, minBindingPower: int)
    requires |r.pattern| > 1 && r.pattern[0].Hole?
    ensures Eligible([r], minBindingPower) == if r.pattern[0].bindingPower >= minBindingPower then [r] else []
  {
    assert [r][..0] == [];
  }

  lemma EligiblePair(a: Rule, b: Rule, minBindingPower: int)
    requires |a.pattern| > 1 && a.pattern[0].Hole? && |b.pattern| > 1 && b.pattern[0].Hole?
    ensures Eligible([a, b], minBindingPower) ==
            (if a.pattern[0].bindingPower >= minBindingPower then [a] else []) +
            (if b.pattern[0].bindingPower >= minBindingPower then [b] else [])
  {
    EligibleOne(a, minBindingPower);
    assert [a, b][..1] == [a];
  }

  lemma LeftSnoc(rules: seq<Rule>, r: Rule, key: TokenKey)
    ensures LeftRules(rules + [r], key) ==
            LeftRules(rules, key) + if IsLeft(r) && KeyForPart(r.pattern[1]) == key then [r] else []
  {
    assert (rules + [r])[..|rules|] == rules;
  }

  lemma ImplicitSnoc(rules: seq<Rule>, r: Rule)
    ensures ImplicitRules(rules + [r]) == ImplicitRules(rules) + if IsImplicit(r) then [r] else []
  {
    assert (rules + [r])[..|rules|] == rules;
  }

  // ---------------------------------------------------------------------------
  // Whole inputs

  predicate NoEOF(keys: seq<TokenKey>) {
    forall i :: 0 <= i < |keys| ==> !keys[i].kind.EOFToken?
  }

  /** Text that reads as keys parses as an expression over those keys does. */
  lemma TextParses(g: Pratt, text: string, keys: seq<TokenKey>) returns (toks: seq<Token>)
    requires Valid(g) && Reads(g.table, text, keys, "") && NoEOF(keys) && |keys| > 0
    ensures Stream(toks) && |toks| == |keys| + 1 && At(toks, 0, keys)
    ensures forall tree: Tree :: ParseExpression(g, toks, 0, 0) == Ok(tree, |keys|) ==> Parse(g, text) == Success(tree)
    ensures ParseExpression(g, toks, 0, 0).Err? ==> Parse(g, text).Failure?
  {
    hide Lex, ParseExpression, Valid, Reads, At;
    toks := ReadsWhole(g.table, text, keys);
  }

  lemma NullPair(a: Rule, b: Rule, key: TokenKey)
    requires IsNull(a) && IsNull(b)
    ensures NullRules([a, b], key) == (if KeyForPart(a.pattern[0]) == key then [a] else []) +
                                      (if KeyForPart(b.pattern[0]) == key then [b] else [])
  {
    hide NullRules;
    NoRules(key);
    NullSnoc([], a, key);
    NullSnoc([a], b, key);
    assert [] + [a] == [a] && [a] + [b] == [a, b];
  }

  lemma LeftPair(a: Rule, b: Rule, key: TokenKey)
    requires IsLeft(a) && IsLeft(b)
    ensures LeftRules([a, b], key) == (if KeyForPart(a.pattern[1]) == key then [a] else []) +
                                      (if KeyForPart(b.pattern[1]) == key then [b] else [])
    ensures ImplicitRules([a, b]) == []
  {
    hide LeftRules, ImplicitRules;
    NoRules(key);
    LeftSnoc([], a, key);
    LeftSnoc([a], b, key);
    ImplicitSnoc([], a);
    ImplicitSnoc([a], b);
    assert [] + [a] == [a] && [a] + [b] == [a, b];
  }
}
