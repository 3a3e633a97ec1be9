/** Printing a domain expression and parsing it back. */
module DomainRoundTrip {
  import opened Domains
  import opened DomainExpr
  import opened Tokenizer
  import opened Grammar
  import opened PrattSpec
  import opened Reading
  import opened DomainText
  import opened DomainTokens

  /** One token, then the rest. */
  lemma AtOne(toks: seq<Token>, i: nat, key: TokenKey, rest: seq<TokenKey>)
    requires At(toks, i, [key] + rest)
    ensures i + 1 < |toks| && KeyForToken(toks[i]) == key && At(toks, i + 1, rest)
  {
    AtSplit(toks, i, [key], rest);
    AtFirst(toks, i, [key]);
  }

  /** A subexpression, then one token. */
  lemma AtLast(toks: seq<Token>, i: nat, keys: seq<TokenKey>, key: TokenKey)
    requires At(toks, i, keys + [key])
    ensures At(toks, i, keys) && i + |keys| + 1 < |toks| && KeyForToken(toks[i + |keys|]) == key
  {
    AtSplit(toks, i, keys, [key]);
    AtFirst(toks, i + |keys|, [key]);
  }

  lemma LoopEnds(toks: seq<Token>, pos: nat, bindingPower: int, tree: Tree)
    requires Stream(toks) && pos < |toks| && LeftForms(KeyForToken(toks[pos]), bindingPower) == []
    ensures LeftLoop(GRAMMAR, toks, pos, bindingPower, tree) == Ok(tree, pos)
  {
    hide LeftForms, SelectLeftForms;
    LeftSelection(toks[pos], bindingPower);
    LoopStops(GRAMMAR, toks, pos, bindingPower, tree);
  }

  /** An atom that is no keyword is an operand. */
  lemma AtomOperand(toks: seq<Token>, i: nat, bindingPower: int)
    requires Stream(toks) && i + 1 < |toks| && toks[i].kind.AtomToken? && !IsKeyword(toks[i].text)
    ensures ParseExpression(GRAMMAR, toks, i, bindingPower) ==
      LeftLoop(GRAMMAR, toks, i + 1, bindingPower, Atom(toks[i]))
  {
    NullLookup(KeyForToken(toks[i]));
    hide ParseExpression, LeftLoop, NullRules;
    NullAtom(GRAMMAR, toks, i + 1, toks[i]);
    ExpressionIsLoop(GRAMMAR, toks, i, bindingPower, Atom(toks[i]), i + 1);
  }

  /** tree flattens to atoms with the given texts. */
  predicate FlattensTo(tree: Tree, texts: seq<string>) {
    var list := FlattenList(tree);
    list.Built? && |list.value| == |texts| && forall i :: 0 <= i < |texts| ==> list.value[i].text == texts[i]
  }

  lemma FlattenComma(tree: Tree, left: Tree, texts: seq<string>, token: Token)
    requires tree.Op? && tree.id == "," && tree.args == [left, Atom(token)] && FlattensTo(left, texts)
    ensures FlattensTo(tree, texts + [token.text])
  {
    assert tree.args[0] == left && tree.args[1] == Atom(token);
    assert FlattenList(tree) == Built(FlattenList(left).value + [token]);
  }

  /** An atom before a comma or the closing parenthesis is an item by itself. */
  lemma ItemOperand(toks: seq<Token>, i: nat)
    requires Stream(toks) && i + 1 < |toks| && toks[i].kind.AtomToken? && !IsKeyword(toks[i].text)
    requires KeyForToken(toks[i + 1]) in [S(","), S(")")]
    ensures ParseExpression(GRAMMAR, toks, i, 6) == Ok(Atom(toks[i]), i + 1)
  {
    assert LeftForms(KeyForToken(toks[i + 1]), 6) == [];
    hide LeftForms, IsKeyword, ParseExpression, LeftLoop;
    AtomOperand(toks, i, 6);
    LoopEnds(toks, i + 1, 6, Atom(toks[i]));
  }

  /** ", item" extends a list. */
  lemma ItemParses(toks: seq<Token>, pos: nat, left: Tree, texts: seq<string>) returns (tree: Tree)
    requires Stream(toks) && pos + 2 < |toks| && KeyForToken(toks[pos]) == S(",") && FlattensTo(left, texts)
    requires toks[pos + 1].kind.AtomToken? && !IsKeyword(toks[pos + 1].text)
    requires KeyForToken(toks[pos + 2]) in [S(","), S(")")]
    ensures LeftLoop(GRAMMAR, toks, pos, 0, left) == LeftLoop(GRAMMAR, toks, pos + 2, 0, tree)
    ensures FlattensTo(tree, texts + [toks[pos + 1].text])
  {
    LeftSelection(toks[pos], 0);
    hide LeftLoop, ParseExpression, SelectLeftForms, FlattensTo, ParseTail, IsKeyword;
    ItemOperand(toks, pos + 1);
    tree := InfixTail(GRAMMAR, toks, COMMA, left, pos, Atom(toks[pos + 1]), pos + 2);
    LoopSteps(GRAMMAR, toks, pos, 0, left, tree, pos + 2);
    FlattenComma(tree, left, texts, toks[pos + 1]);
  }

  /** What follows the texts of a list up to the closing parenthesis. */
  lemma RestFollows(toks: seq<Token>, pos: nat, texts: seq<string>)
    requires At(toks, pos, RestKeys(texts) + [S(")")])
    ensures pos < |toks| && KeyForToken(toks[pos]) in [S(","), S(")")]
  {
    AtFirst(toks, pos, RestKeys(texts) + [S(")")]);
  }

  lemma {:induction false} RestParses(toks: seq<Token>, pos: nat, left: Tree, done: seq<string>, texts: seq<string>)
    returns (tree: Tree)
    requires Stream(toks) && FlattensTo(left, done) && NoKeyword(texts)
    requires At(toks, pos, RestKeys(texts) + [S(")")])
    ensures LeftLoop(GRAMMAR, toks, pos, 0, left) == Ok(tree, pos + |RestKeys(texts)|)
    ensures FlattensTo(tree, done + texts)
    decreases |texts|
  {
    hide LeftLoop, FlattensTo, At;
    if |texts| == 0 {
      AtFirst(toks, pos, RestKeys(texts) + [S(")")]);
      LoopEnds(toks, pos, 0, left);
      tree := left;
      assert done + texts == done;
    } else {
      var rest := RestKeys(texts[1..]) + [S(")")];
      assert RestKeys(texts) + [S(")")] == [S(",")] + ([A(texts[0])] + rest);
      AtOne(toks, pos, S(","), [A(texts[0])] + rest);
      AtOne(toks, pos + 1, A(texts[0]), rest);
      RestFollows(toks, pos + 2, texts[1..]);
      var longer := ItemParses(toks, pos, left, done);
      tree := RestParses(toks, pos + 2, longer, done + [texts[0]], texts[1..]);
      assert done + [texts[0]] + texts[1..] == done + texts;
    }
  }

  /** A non-empty list of arguments up to ")". */
  lemma ListParses(toks: seq<Token>, i: nat, texts: seq<string>) returns (tree: Tree)
    requires Stream(toks) && |texts| > 0 && NoKeyword(texts) && At(toks, i, ListKeys(texts) + [S(")")])
    ensures ParseExpression(GRAMMAR, toks, i, 0) == Ok(tree, i + |ListKeys(texts)|)
    ensures FlattensTo(tree, texts)
  {
    hide LeftLoop, ParseExpression, At, RestKeys;
    var rest := RestKeys(texts[1..]) + [S(")")];
    assert ListKeys(texts) + [S(")")] == [A(texts[0])] + rest;
    AtOne(toks, i, A(texts[0]), rest);
    AtomOperand(toks, i, 0);
    assert FlattensTo(Atom(toks[i]), [texts[0]]);
    hide FlattensTo;
    tree := RestParses(toks, i + 1, Atom(toks[i]), [texts[0]], texts[1..]);
    assert [texts[0]] + texts[1..] == texts;
  }

  function EmptyCall(name: string): Rule { if name == "is" then IS_EMPTY else SUB_EMPTY }
  function FullCall(name: string): Rule { if name == "is" then IS_CALL else SUB_CALL }

  lemma EmptyCallParses(toks: seq<Token>, i: nat, name: string) returns (tree: Tree)
    requires Stream(toks) && IsKeyword(name) && At(toks, i, CallKeys(name, []))
    ensures i + 3 < |toks| && ParseNull(GRAMMAR, toks, i + 1, toks[i]) == Ok(tree, i + 3)
    ensures tree.Op? && tree.id == EmptyCall(name).id
  {
    NullLookup(A(name));
    hide ParseNull, ParseTail, NullRules, At;
    assert ListKeys([]) + [S(")")] == [S(")")];
    AtOne(toks, i, A(name), [S("(")] + [S(")")]);
    AtOne(toks, i + 1, S("("), [S(")")]);
    AtFirst(toks, i + 2, [S(")")]);
    tree := LiteralTail(GRAMMAR, toks, i, EmptyCall(name));
    NullFirst(GRAMMAR, toks, i + 1, toks[i], tree, i + 3);
  }

  /** The empty-call form fails on an argument, after its opening parenthesis. */
  lemma EmptyCallFails(toks: seq<Token>, i: nat, name: string)
    requires Stream(toks) && i + 2 < |toks| && IsKeyword(name) && KeyForToken(toks[i + 1]) == S("(")
    requires toks[i + 2].kind.AtomToken?
    ensures ParseTail(GRAMMAR, toks, i + 1, EmptyCall(name), 1, [toks[i]], [], toks[i].span).Err?
  {
    hide ParseTail;
    var form, first := EmptyCall(name), toks[i];
    TailLiteral(GRAMMAR, toks, i + 1, form, 1, [first], [], first.span);
    TailMismatch(GRAMMAR, toks, i + 2, form, 2, [first] + [toks[i + 1]], [], FromTo(first.span, toks[i + 1].span));
  }

  lemma CallAt(toks: seq<Token>, i: nat, name: string, texts: seq<string>)
    requires Stream(toks) && |texts| > 0 && At(toks, i, CallKeys(name, texts))
    ensures i + 2 < |toks| && KeyForToken(toks[i]) == A(name) && KeyForToken(toks[i + 1]) == S("(")
    ensures toks[i + 2].kind.AtomToken? && At(toks, i + 2, ListKeys(texts) + [S(")")])
    ensures |CallKeys(name, texts)| == |ListKeys(texts)| + 3 && i + |ListKeys(texts)| + 3 < |toks|
    ensures KeyForToken(toks[i + 2 + |ListKeys(texts)|]) == S(")")
  {
    hide At, RestKeys;
    var list := ListKeys(texts) + [S(")")];
    AtOne(toks, i, A(name), [S("(")] + list);
    AtOne(toks, i + 1, S("("), list);
    AtFirst(toks, i + 2, list);
    AtLast(toks, i + 2, ListKeys(texts), S(")"));
  }

  lemma FullCallParses(toks: seq<Token>, i: nat, name: string, texts: seq<string>) returns (tree: Tree)
    requires Stream(toks) && IsKeyword(name) && |texts| > 0 && NoKeyword(texts) && At(toks, i, CallKeys(name, texts))
    ensures i + |CallKeys(name, texts)| < |toks|
    ensures ParseNull(GRAMMAR, toks, i + 1, toks[i]) == Ok(tree, i + |CallKeys(name, texts)|)
    ensures tree.Op? && tree.id == FullCall(name).id && |tree.args| == 1 && FlattensTo(tree.args[0], texts)
  {
    NullLookup(A(name));
    hide ParseNull, ParseTail, ParseExpression, NullRules, At, FlattensTo, RestKeys, CallKeys, ListKeys, NoKeyword;
    CallAt(toks, i, name, texts);
    EmptyCallFails(toks, i, name);
    var arguments := ListParses(toks, i + 2, texts);
    var j := i + 2 + |ListKeys(texts)|;
    tree := CallTail(GRAMMAR, toks, i, FullCall(name), arguments, j);
    NullSecond(GRAMMAR, toks, i + 1, toks[i], tree, j + 1);
  }

  lemma {:induction false} DomainsReadBack(c: Codec, ds: seq<Domain>, tokens: seq<Token>)
    requires Printable(c, Is(ds)) && |tokens| == |ds|
    requires forall i :: 0 <= i < |ds| ==> tokens[i].text == c.showDomain(ds[i])
    ensures KeepDomains(c, tokens) == Built(ds)
  {
    hide ArgumentText;
    if |ds| > 0 {
      var n := |ds| - 1;
      DomainsReadBack(c, ds[..n], tokens[..n]);
      assert GoodDomainText(c, ds[n]);
      assert ds[..n] + [ds[n]] == ds;
    }
  }

  lemma {:induction false} SuffixesReadBack(c: Codec, ss: seq<Suffix>, tokens: seq<Token>)
    requires Printable(c, Sub(ss)) && |tokens| == |ss|
    requires forall i :: 0 <= i < |ss| ==> tokens[i].text == c.showSuffix(ss[i])
    ensures KeepSuffixes(c, tokens) == Built(ss)
  {
    hide ArgumentText;
    if |ss| > 0 {
      var n := |ss| - 1;
      SuffixesReadBack(c, ss[..n], tokens[..n]);
      assert GoodSuffixText(c, ss[n]);
      assert ss[..n] + [ss[n]] == ss;
    }
  }

  lemma IsParses(c: Codec, ds: seq<Domain>, toks: seq<Token>, i: nat) returns (tree: Tree)
    requires Printable(c, Is(ds)) && KeywordFree(c, Is(ds)) && Stream(toks) && At(toks, i, BodyKeys(c, Is(ds)))
    ensures i + |BodyKeys(c, Is(ds))| < |toks|
    ensures ParseNull(GRAMMAR, toks, i + 1, toks[i]) == Ok(tree, i + |BodyKeys(c, Is(ds))|)
    ensures Build(c, tree) == Built(Is(ds))
  {
    hide ParseNull, At, GoodDomainText;
    var texts := DomainTexts(c, ds);
    if |ds| == 0 {
      assert texts == [];
      tree := EmptyCallParses(toks, i, "is");
    } else {
      tree := FullCallParses(toks, i, "is", texts);
      DomainsReadBack(c, ds, FlattenList(tree.args[0]).value);
    }
  }

  lemma SubParses(c: Codec, ss: seq<Suffix>, toks: seq<Token>, i: nat) returns (tree: Tree)
    requires Printable(c, Sub(ss)) && KeywordFree(c, Sub(ss)) && Stream(toks) && At(toks, i, BodyKeys(c, Sub(ss)))
    ensures i + |BodyKeys(c, Sub(ss))| < |toks|
    ensures ParseNull(GRAMMAR, toks, i + 1, toks[i]) == Ok(tree, i + |BodyKeys(c, Sub(ss))|)
    ensures Build(c, tree) == Built(Sub(ss))
  {
    hide ParseNull, At, GoodSuffixText;
    var texts := SuffixTexts(c, ss);
    if |ss| == 0 {
      assert texts == [];
      tree := EmptyCallParses(toks, i, "sub");
    } else {
      tree := FullCallParses(toks, i, "sub", texts);
      SuffixesReadBack(c, ss, FlattenList(tree.args[0]).value);
    }
  }

  // ---------------------------------------------------------------------------
  // Operators

  function BindingPower(op: Operator): int { if op == AndOp then 20 else 10 }

  function OperatorRule(op: Operator): Rule { if op == AndOp then AND else OR }

  /** The tightest context in which the printed body of e still parses as a whole. */
  function Loosest(e: Expr): int { if e.Binary? then BindingPower(e.op) else 30 }

  /** e, or a parenthesized e. */
  function LoosestIn(e: Expr, context: nat): int { if Precedence(e) < context then 30 else Loosest(e) }

  /** The body of a disjunction is never followed by a conjunction. */
  predicate MayFollow(e: Expr, next: TokenKey) {
    e.Binary? && e.op == OrOp ==> next != S("&&")
  }

  predicate MayFollowIn(e: Expr, context: nat, next: TokenKey) {
    Precedence(e) >= context ==> MayFollow(e, next)
  }

  /** The tokens of e from i on parse to tree, which the loop then tries to extend. */
  ghost predicate ParsesTo(c: Codec, e: Expr, toks: seq<Token>, i: nat, j: nat, bindingPower: int, tree: Tree)
    requires Stream(toks) && i < |toks| && j < |toks|
  {
    && ParseExpression(GRAMMAR, toks, i, bindingPower) == LeftLoop(GRAMMAR, toks, j, bindingPower, tree)
    && Build(c, tree) == Built(Reassoc(e))
  }

  lemma NullParsesTo(c: Codec, e: Expr, toks: seq<Token>, i: nat, j: nat, bindingPower: int, tree: Tree)
    requires Stream(toks) && i + 1 < |toks| && ParseNull(GRAMMAR, toks, i + 1, toks[i]) == Ok(tree, j)
    requires Build(c, tree) == Built(Reassoc(e))
    ensures j < |toks| && ParsesTo(c, e, toks, i, j, bindingPower, tree)
  {
    hide ParseNull, LeftLoop, ParseExpression;
    ExpressionIsLoop(GRAMMAR, toks, i, bindingPower, tree, j);
  }

  lemma LiteralParses(c: Codec, value: bool, toks: seq<Token>, i: nat) returns (tree: Tree)
    requires Stream(toks) && At(toks, i, BodyKeys(c, Literal(value)))
    ensures i + 1 < |toks| && ParseNull(GRAMMAR, toks, i + 1, toks[i]) == Ok(tree, i + 1)
    ensures Build(c, tree) == Built(Literal(value))
  {
    AtFirst(toks, i, BodyKeys(c, Literal(value)));
    NullLookup(KeyForToken(toks[i]));
    NullAtom(GRAMMAR, toks, i + 1, toks[i]);
    tree := Atom(toks[i]);
  }

  lemma NotParses(c: Codec, x: Expr, toks: seq<Token>, i: nat, operand: Tree, j: nat) returns (tree: Tree)
    requires Stream(toks) && i + 2 < |toks| && j < |toks| && KeyForToken(toks[i]) == S("!")
    requires ParsesTo(c, x, toks, i + 1, j, 30, operand)
    ensures ParseNull(GRAMMAR, toks, i + 1, toks[i]) == Ok(tree, j)
    ensures Build(c, tree) == Built(Reassoc(Not(x)))
  {
    NullLookup(S("!"));
    hide ParseNull, ParseTail, ParseExpression, LeftLoop, NullRules;
    LoopEnds(toks, j, 30, operand);
    tree := PrefixTail(GRAMMAR, toks, i, NOT, operand, j);
    NullFirst(GRAMMAR, toks, i + 1, toks[i], tree, j);
    assert tree.args[0] == operand;
  }

  lemma GroupParses(c: Codec, x: Expr, toks: seq<Token>, i: nat, inner: Tree, j: nat) returns (tree: Tree)
    requires Stream(toks) && i + 2 < |toks| && j + 1 < |toks| && KeyForToken(toks[i]) == S("(")
      && KeyForToken(toks[j]) == S(")")
    requires ParsesTo(c, x, toks, i + 1, j, 0, inner)
    ensures ParseNull(GRAMMAR, toks, i + 1, toks[i]) == Ok(tree, j + 1)
    ensures Build(c, tree) == Built(Reassoc(x))
  {
    NullLookup(S("("));
    hide ParseNull, ParseTail, ParseExpression, LeftLoop, NullRules;
    LoopEnds(toks, j, 0, inner);
    tree := GroupTail(GRAMMAR, toks, i, GROUP, inner, j);
    NullFirst(GRAMMAR, toks, i + 1, toks[i], tree, j + 1);
    assert tree.args[0] == inner;
  }

  lemma OperatorBuilds(c: Codec, op: Operator, tree: Tree, left: Tree, le: Expr, right: Tree, re: Expr)
    requires tree.Op? && tree.id == OperatorText(op) && tree.args == [left, right]
    requires Build(c, left) == Built(le) && Build(c, right) == Built(re)
    ensures Build(c, tree) == Built(Binary(op, le, re))
  {
    assert tree.args[0] == left && tree.args[1] == right;
  }

  lemma OperatorSelected(token: Token, op: Operator, bindingPower: int)
    requires KeyForToken(token) == S(OperatorText(op)) && bindingPower <= BindingPower(op)
    ensures SelectLeftForms(GRAMMAR, token, bindingPower) == [OperatorRule(op)]
  {
    LeftSelection(token, bindingPower);
  }

  lemma OperatorRuleParts(op: Operator)
    ensures var rule := OperatorRule(op);
      rule.pattern == [Hole(BindingPower(op)), Symbol(OperatorText(op)), Hole(BindingPower(op) + 1)]
        && rule.id == OperatorText(op)
  {
  }

  /** The loop takes op and its right operand. */
  lemma OperatorParses(c: Codec, op: Operator, le: Expr, r: Expr, toks: seq<Token>, pos: nat, bindingPower: int,
                       left: Tree, right: Tree, j: nat)
    returns (tree: Tree)
    requires Stream(toks) && pos + 2 < |toks| && j < |toks| && KeyForToken(toks[pos]) == S(OperatorText(op))
    requires bindingPower <= BindingPower(op) && MayFollow(Binary(op, le, r), KeyForToken(toks[j]))
    requires Build(c, left) == Built(le) && ParsesTo(c, r, toks, pos + 1, j, BindingPower(op) + 1, right)
    ensures LeftLoop(GRAMMAR, toks, pos, bindingPower, left) == LeftLoop(GRAMMAR, toks, j, bindingPower, tree)
    ensures Build(c, tree) == Built(Binary(op, le, Reassoc(r)))
  {
    assert LeftForms(KeyForToken(toks[j]), BindingPower(op) + 1) == [];
    hide ParseTail, ParseExpression, LeftLoop, SelectLeftForms, Build, Reassoc, OperatorText, OperatorRule,
         BindingPower, LeftForms;
    OperatorSelected(toks[pos], op, bindingPower);
    OperatorRuleParts(op);
    LoopEnds(toks, j, BindingPower(op) + 1, right);
    tree := InfixTail(GRAMMAR, toks, OperatorRule(op), left, pos, right, j);
    LoopSteps(GRAMMAR, toks, pos, bindingPower, left, tree, j);
    OperatorBuilds(c, op, tree, left, le, right, Reassoc(r));
  }

  /** A printed expression parses to its reassociated form, from any context it may stand in. */
  lemma {:induction false} BodyParses(c: Codec, e: Expr, toks: seq<Token>, i: nat,
                                      bindingPower: int) returns (tree: Tree)
    requires Printable(c, e) && KeywordFree(c, e) && Stream(toks) && At(toks, i, BodyKeys(c, e))
    requires bindingPower <= Loosest(e) && MayFollow(e, KeyForToken(toks[i + |BodyKeys(c, e)|]))
    ensures ParsesTo(c, e, toks, i, i + |BodyKeys(c, e)|, bindingPower, tree)
    decreases e, 1
  {
    hide ParsesTo, At, ParseNull;
    match e
    case Literal(value) =>
      tree := LiteralParses(c, value, toks, i);
      NullParsesTo(c, e, toks, i, i + 1, bindingPower, tree);
    case Is(ds) =>
      tree := IsParses(c, ds, toks, i);
      NullParsesTo(c, e, toks, i, i + |BodyKeys(c, e)|, bindingPower, tree);
    case Sub(ss) =>
      tree := SubParses(c, ss, toks, i);
      NullParsesTo(c, e, toks, i, i + |BodyKeys(c, e)|, bindingPower, tree);
    case Not(x) => tree := NotBodyParses(c, x, toks, i, bindingPower);
    case Binary(op, l, r) => tree := BinaryBodyParses(c, op, l, r, toks, i, bindingPower);
  }

  lemma {:induction false} NotBodyParses(c: Codec, x: Expr, toks: seq<Token>, i: nat,
                                         bindingPower: int) returns (tree: Tree)
    requires Printable(c, x) && KeywordFree(c, x) && Stream(toks) && At(toks, i, BodyKeys(c, Not(x)))
    ensures ParsesTo(c, Not(x), toks, i, i + |BodyKeys(c, Not(x))|, bindingPower, tree)
    decreases x, 3
  {
    hide ParsesTo, At, ParseNull, Reassoc, Build, KeywordFree, Printable, ShowKeys;
    AtOne(toks, i, S("!"), ShowKeys(c, x, 3));
    AtFirst(toks, i + 1, ShowKeys(c, x, 3));
    var j := i + 1 + |ShowKeys(c, x, 3)|;
    var operand := ShowParses(c, x, 3, toks, i + 1, 30);
    tree := NotParses(c, x, toks, i, operand, j);
    NullParsesTo(c, Not(x), toks, i, j, bindingPower, tree);
  }

  lemma {:induction false} BinaryBodyParses(c: Codec, op: Operator, l: Expr, r: Expr, toks: seq<Token>, i: nat,
                                            bindingPower: int)
    returns (tree: Tree)
    requires Printable(c, l) && Printable(c, r) && KeywordFree(c, l) && KeywordFree(c, r)
    requires Stream(toks) && At(toks, i, BodyKeys(c, Binary(op, l, r)))
    requires bindingPower <= BindingPower(op)
    requires MayFollow(Binary(op, l, r), KeyForToken(toks[i + |BodyKeys(c, Binary(op, l, r))|]))
    ensures ParsesTo(c, Binary(op, l, r), toks, i, i + |BodyKeys(c, Binary(op, l, r))|, bindingPower, tree)
    decreases Binary(op, l, r), 0
  {
    hide At, ParseNull, ParseExpression, LeftLoop, Build, KeywordFree, Printable, ShowKeys, Graft;
    var context := OperatorPrecedence(op);
    var kl, kr := ShowKeys(c, l, context), [S(OperatorText(op))] + ShowKeys(c, r, context);
    AtSplit(toks, i, kl, kr);
    AtFirst(toks, i + |kl|, kr);
    var left := ShowParses(c, l, context, toks, i, bindingPower);
    tree := ChainParses(c, op, r, toks, i + |kl|, bindingPower, left, Reassoc(l));
  }

  lemma {:induction false} ShowParses(c: Codec, e: Expr, context: nat, toks: seq<Token>, i: nat, bindingPower: int)
    returns (tree: Tree)
    requires Printable(c, e) && KeywordFree(c, e) && Stream(toks) && At(toks, i, ShowKeys(c, e, context))
    requires bindingPower <= LoosestIn(e, context)
    requires MayFollowIn(e, context, KeyForToken(toks[i + |ShowKeys(c, e, context)|]))
    ensures ParsesTo(c, e, toks, i, i + |ShowKeys(c, e, context)|, bindingPower, tree)
    decreases e, 2
  {
    hide ParsesTo, At, ParseNull, Reassoc, Build, KeywordFree, Printable, BodyKeys;
    if Precedence(e) < context {
      var keys := BodyKeys(c, e);
      AtOne(toks, i, S("("), keys + [S(")")]);
      AtLast(toks, i + 1, keys, S(")"));
      var inner := BodyParses(c, e, toks, i + 1, 0);
      tree := GroupParses(c, e, toks, i, inner, i + 1 + |keys|);
      NullParsesTo(c, e, toks, i, i + |keys| + 2, bindingPower, tree);
    } else {
      tree := BodyParses(c, e, toks, i, bindingPower);
    }
  }

  lemma ChainAt(toks: seq<Token>, pos: nat, sign: TokenKey, first: seq<TokenKey>, second: seq<TokenKey>)
    requires At(toks, pos, [sign] + (first + ([sign] + second)))
    ensures At(toks, pos, [sign] + first) && At(toks, pos + 1 + |first|, [sign] + second)
    ensures KeyForToken(toks[pos + 1 + |first|]) == sign
  {
    assert [sign] + (first + ([sign] + second)) == ([sign] + first) + ([sign] + second);
    AtSplit(toks, pos, [sign] + first, [sign] + second);
    AtFirst(toks, pos + 1 + |first|, [sign] + second);
  }

  lemma GraftChain(op: Operator, le: Expr, r: Expr)
    requires IsChain(r, op)
    ensures Graft(op, Graft(op, le, Reassoc(r.left)), Reassoc(r.right)) == Graft(op, le, Reassoc(r))
  {
    GraftAssociates(op, le, Reassoc(r.left), Reassoc(r.right));
  }

  /** A chain printed in its own operator's context is not wrapped. */
  lemma ChainKeys(c: Codec, op: Operator, r: Expr)
    requires IsChain(r, op)
    ensures var context := OperatorPrecedence(op);
      ShowKeys(c, r, context) == ShowKeys(c, r.left, context) + ([S(OperatorText(op))] + ShowKeys(c, r.right, context))
  {
  }

  /** After left, "op r" hangs r below the chain left heads, when r heads no chain of op. */
  lemma {:induction false} LinkParses(c: Codec, op: Operator, r: Expr, toks: seq<Token>, pos: nat, bindingPower: int,
                                      left: Tree, le: Expr)
    returns (tree: Tree)
    requires Printable(c, r) && KeywordFree(c, r) && Stream(toks) && !IsChain(r, op)
    requires At(toks, pos, [S(OperatorText(op))] + ShowKeys(c, r, OperatorPrecedence(op)))
    requires bindingPower <= BindingPower(op) && Build(c, left) == Built(le)
    requires MayFollow(Binary(op, le, r), KeyForToken(toks[pos + 1 + |ShowKeys(c, r, OperatorPrecedence(op))|]))
    ensures LeftLoop(GRAMMAR, toks, pos, bindingPower, left)
         == LeftLoop(GRAMMAR, toks, pos + 1 + |ShowKeys(c, r, OperatorPrecedence(op))|, bindingPower, tree)
    ensures Build(c, tree) == Built(Graft(op, le, Reassoc(r)))
    decreases r, 3
  {
    hide At, ParseNull, ParseExpression, LeftLoop, Build, ParsesTo, ShowKeys, KeywordFree, Printable, Reassoc;
    var context, sign := OperatorPrecedence(op), S(OperatorText(op));
    var keys := ShowKeys(c, r, context);
    AtOne(toks, pos, sign, keys);
    AtFirst(toks, pos + 1, keys);
    var right := ShowParses(c, r, context, toks, pos + 1, BindingPower(op) + 1);
    tree := OperatorParses(c, op, le, r, toks, pos, bindingPower, left, right, pos + 1 + |keys|);
    ReassocRoot(r);
  }

  /** After left, "op r" is grafted on: the chain in r joins the chain left already heads. */
  lemma {:induction false} ChainParses(c: Codec, op: Operator, r: Expr, toks: seq<Token>, pos: nat, bindingPower: int,
                                       left: Tree, le: Expr)
    returns (tree: Tree)
    requires Printable(c, r) && KeywordFree(c, r) && Stream(toks)
    requires At(toks, pos, [S(OperatorText(op))] + ShowKeys(c, r, OperatorPrecedence(op)))
    requires bindingPower <= BindingPower(op) && Build(c, left) == Built(le)
    requires MayFollow(Binary(op, le, r), KeyForToken(toks[pos + 1 + |ShowKeys(c, r, OperatorPrecedence(op))|]))
    ensures LeftLoop(GRAMMAR, toks, pos, bindingPower, left)
         == LeftLoop(GRAMMAR, toks, pos + 1 + |ShowKeys(c, r, OperatorPrecedence(op))|, bindingPower, tree)
    ensures Build(c, tree) == Built(Graft(op, le, Reassoc(r)))
    decreases r, 4
  {
    hide At, ParseNull, ParseExpression, LeftLoop, Build, ParsesTo, ShowKeys, Graft, Reassoc;
    if IsChain(r, op) {
      var context, sign := OperatorPrecedence(op), S(OperatorText(op));
      var first, second := ShowKeys(c, r.left, context), ShowKeys(c, r.right, context);
      ChainKeys(c, op, r);
      ChainAt(toks, pos, sign, first, second);
      var longer := ChainParses(c, op, r.left, toks, pos, bindingPower, left, le);
      var grown := Graft(op, le, Reassoc(r.left));
      tree := ChainParses(c, op, r.right, toks, pos + 1 + |first|, bindingPower, longer, grown);
      GraftChain(op, le, r);
    } else {
      tree := LinkParses(c, op, r, toks, pos, bindingPower, left, le);
    }
  }
}
