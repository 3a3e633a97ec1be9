/** An argument that prints as a keyword makes the printed expression unreadable; nothing else does. */
module DomainKeywords {
  import opened Domains
  import opened DomainExpr
  import opened Tokenizer
  import opened Grammar
  import opened PrattSpec
  import opened Reading
  import opened DomainText
  import opened DomainTokens
  import opened DomainRoundTrip

  /** A keyword with no call behind it starts no expression. */
  lemma KeywordFails(toks: seq<Token>, i: nat, bindingPower: int)
    requires Stream(toks) && i + 1 < |toks| && toks[i].kind.AtomToken? && IsKeyword(toks[i].text)
    requires KeyForToken(toks[i + 1]) != S("(")
    ensures ParseExpression(GRAMMAR, toks, i, bindingPower).Err?
  {
    NullLookup(KeyForToken(toks[i]));
    hide ParseTail, ParseNull, NullRules, ParseExpression;
    var first, name := toks[i], toks[i].text;
    TailMismatch(GRAMMAR, toks, i + 1, EmptyCall(name), 1, [first], [], first.span);
    TailMismatch(GRAMMAR, toks, i + 1, FullCall(name), 1, [first], [], first.span);
    NullTwoFail(GRAMMAR, toks, i + 1, first);
    NullFailsExpression(GRAMMAR, toks, i, bindingPower);
  }

  lemma CommaFormsAt(toks: seq<Token>, pos: nat, left: Tree) returns (tree: Tree)
    requires Stream(toks) && pos + 1 < |toks| && KeyForToken(toks[pos]) == S(",")
    requires ParseExpression(GRAMMAR, toks, pos + 1, 6).Err?
    ensures ParseTail(GRAMMAR, toks, pos, COMMA, 1, [], [left], SpanOf(left)).Err?
    ensures ParseTail(GRAMMAR, toks, pos, TRAILING_COMMA, 1, [], [left], SpanOf(left)) == Ok(tree, pos + 1)
  {
    hide ParseTail, ParseExpression;
    var span := FromTo(SpanOf(left), toks[pos].span);
    TailLiteral(GRAMMAR, toks, pos, COMMA, 1, [], [left], SpanOf(left));
    TailHoleFails(GRAMMAR, toks, pos + 1, COMMA, 2, [] + [toks[pos]], [left], span);
    TailLiteral(GRAMMAR, toks, pos, TRAILING_COMMA, 1, [], [left], SpanOf(left));
    TailDone(GRAMMAR, toks, pos + 1, TRAILING_COMMA, [] + [toks[pos]], [left], span);
    tree := Op(TRAILING_COMMA.id, [] + [toks[pos]], [left], span);
  }

  /** The comma is then read as trailing, and no comma joins the keyword either. */
  lemma CommaKeywordFails(toks: seq<Token>, pos: nat, left: Tree)
    requires Stream(toks) && pos + 2 < |toks| && KeyForToken(toks[pos]) == S(",")
    requires toks[pos + 1].kind.AtomToken? && IsKeyword(toks[pos + 1].text) && KeyForToken(toks[pos + 2]) != S("(")
    ensures LeftLoop(GRAMMAR, toks, pos, 0, left).Err?
  {
    LeftSelection(toks[pos], 0);
    LeftSelection(toks[pos + 1], 0);
    KeywordFails(toks, pos + 1, 6);
    hide ParseTail, LeftLoop, ParseExpression, SelectLeftForms;
    var trailing := CommaFormsAt(toks, pos, left);
    LoopStepsSecond(GRAMMAR, toks, pos, 0, left, trailing, pos + 1);
    TailHoleFails(GRAMMAR, toks, pos + 1, MISSING_COMMA, 1, [], [trailing], SpanOf(trailing));
    LoopFails(GRAMMAR, toks, pos + 1, 0, trailing);
  }

  lemma {:induction false} RestFails(toks: seq<Token>, pos: nat, left: Tree, done: seq<string>, texts: seq<string>)
    requires Stream(toks) && FlattensTo(left, done) && !NoKeyword(texts)
    requires At(toks, pos, RestKeys(texts) + [S(")")])
    ensures LeftLoop(GRAMMAR, toks, pos, 0, left).Err?
    decreases |texts|
  {
    hide LeftLoop, FlattensTo, At;
    var rest := RestKeys(texts[1..]) + [S(")")];
    assert RestKeys(texts) + [S(")")] == [S(",")] + ([A(texts[0])] + rest);
    AtOne(toks, pos, S(","), [A(texts[0])] + rest);
    AtOne(toks, pos + 1, A(texts[0]), rest);
    RestFollows(toks, pos + 2, texts[1..]);
    if IsKeyword(texts[0]) {
      CommaKeywordFails(toks, pos, left);
    } else {
      var longer := ItemParses(toks, pos, left, done);
      RestFails(toks, pos + 2, longer, done + [texts[0]], texts[1..]);
    }
  }

  lemma ListFails(toks: seq<Token>, i: nat, texts: seq<string>)
    requires Stream(toks) && !NoKeyword(texts) && At(toks, i, ListKeys(texts) + [S(")")])
    ensures ParseExpression(GRAMMAR, toks, i, 0).Err?
  {
    hide LeftLoop, ParseExpression, At, RestKeys;
    var rest := RestKeys(texts[1..]) + [S(")")];
    assert ListKeys(texts) + [S(")")] == [A(texts[0])] + rest;
    AtOne(toks, i, A(texts[0]), rest);
    RestFollows(toks, i + 1, texts[1..]);
    if IsKeyword(texts[0]) {
      KeywordFails(toks, i, 0);
    } else {
      AtomOperand(toks, i, 0);
      assert FlattensTo(Atom(toks[i]), [texts[0]]);
      RestFails(toks, i + 1, Atom(toks[i]), [texts[0]], texts[1..]);
    }
  }

  lemma CallFails(toks: seq<Token>, i: nat, name: string, texts: seq<string>, bindingPower: int)
    requires Stream(toks) && IsKeyword(name) && !NoKeyword(texts) && At(toks, i, CallKeys(name, texts))
    ensures i < |toks| && ParseExpression(GRAMMAR, toks, i, bindingPower).Err?
  {
    NullLookup(A(name));
    hide ParseNull, ParseTail, ParseExpression, NullRules, At, CallKeys, ListKeys;
    CallAt(toks, i, name, texts);
    EmptyCallFails(toks, i, name);
    ListFails(toks, i + 2, texts);
    hide NoKeyword;
    var first := toks[i];
    TailLiteral(GRAMMAR, toks, i + 1, FullCall(name), 1, [first], [], first.span);
    var open := toks[i + 1];
    TailHoleFails(GRAMMAR, toks, i + 2, FullCall(name), 2, [first] + [open], [], FromTo(first.span, open.span));
    NullTwoFail(GRAMMAR, toks, i + 1, first);
    NullFailsExpression(GRAMMAR, toks, i, bindingPower);
  }

  lemma NotFails(toks: seq<Token>, i: nat, bindingPower: int)
    requires Stream(toks) && i + 1 < |toks| && KeyForToken(toks[i]) == S("!")
    requires ParseExpression(GRAMMAR, toks, i + 1, 30).Err?
    ensures ParseExpression(GRAMMAR, toks, i, bindingPower).Err?
  {
    NullLookup(S("!"));
    hide ParseNull, ParseTail, ParseExpression, NullRules;
    TailHoleFails(GRAMMAR, toks, i + 1, NOT, 1, [toks[i]], [], toks[i].span);
    NullOneFails(GRAMMAR, toks, i + 1, toks[i]);
    NullFailsExpression(GRAMMAR, toks, i, bindingPower);
  }

  lemma GroupFails(toks: seq<Token>, i: nat, bindingPower: int)
    requires Stream(toks) && i + 1 < |toks| && KeyForToken(toks[i]) == S("(")
    requires ParseExpression(GRAMMAR, toks, i + 1, 0).Err?
    ensures ParseExpression(GRAMMAR, toks, i, bindingPower).Err?
  {
    NullLookup(S("("));
    hide ParseNull, ParseTail, ParseExpression, NullRules;
    TailHoleFails(GRAMMAR, toks, i + 1, GROUP, 1, [toks[i]], [], toks[i].span);
    NullOneFails(GRAMMAR, toks, i + 1, toks[i]);
    NullFailsExpression(GRAMMAR, toks, i, bindingPower);
  }

  lemma OperatorFails(op: Operator, toks: seq<Token>, pos: nat, bindingPower: int, left: Tree)
    requires Stream(toks) && pos + 1 < |toks| && KeyForToken(toks[pos]) == S(OperatorText(op))
    requires bindingPower <= BindingPower(op) && ParseExpression(GRAMMAR, toks, pos + 1, BindingPower(op) + 1).Err?
    ensures LeftLoop(GRAMMAR, toks, pos, bindingPower, left).Err?
  {
    hide ParseTail, ParseExpression, LeftLoop, SelectLeftForms, OperatorText, OperatorRule, BindingPower;
    OperatorSelected(toks[pos], op, bindingPower);
    OperatorRuleParts(op);
    var form := OperatorRule(op);
    TailLiteral(GRAMMAR, toks, pos, form, 1, [], [left], SpanOf(left));
    TailHoleFails(GRAMMAR, toks, pos + 1, form, 2, [] + [toks[pos]], [left], FromTo(SpanOf(left), toks[pos].span));
    LoopFails(GRAMMAR, toks, pos, bindingPower, left);
  }

  lemma {:induction false} BodyFails(c: Codec, e: Expr, toks: seq<Token>, i: nat, bindingPower: int)
    requires Printable(c, e) && !KeywordFree(c, e) && Stream(toks) && At(toks, i, BodyKeys(c, e))
    requires bindingPower <= Loosest(e) && MayFollow(e, KeyForToken(toks[i + |BodyKeys(c, e)|]))
    ensures ParseExpression(GRAMMAR, toks, i, bindingPower).Err?
    decreases e, 1
  {
    hide At, ParseExpression, ShowKeys;
    match e
    case Literal(_) =>
    case Is(ds) => CallFails(toks, i, "is", DomainTexts(c, ds), bindingPower);
    case Sub(ss) => CallFails(toks, i, "sub", SuffixTexts(c, ss), bindingPower);
    case Not(x) =>
      AtOne(toks, i, S("!"), ShowKeys(c, x, 3));
      AtFirst(toks, i + 1, ShowKeys(c, x, 3));
      ShowFails(c, x, 3, toks, i + 1, 30);
      NotFails(toks, i, bindingPower);
    case Binary(op, l, r) => BinaryFails(c, op, l, r, toks, i, bindingPower);
  }

  lemma {:induction false} BinaryFails(c: Codec, op: Operator, l: Expr, r: Expr, toks: seq<Token>, i: nat,
                                       bindingPower: int)
    requires Printable(c, l) && Printable(c, r) && !(KeywordFree(c, l) && KeywordFree(c, r))
    requires Stream(toks) && At(toks, i, BodyKeys(c, Binary(op, l, r)))
    requires bindingPower <= BindingPower(op)
    requires MayFollow(Binary(op, l, r), KeyForToken(toks[i + |BodyKeys(c, Binary(op, l, r))|]))
    ensures ParseExpression(GRAMMAR, toks, i, bindingPower).Err?
    decreases Binary(op, l, r), 0
  {
    hide At, ParseNull, ParseExpression, LeftLoop, Build, KeywordFree, Printable, ShowKeys, Reassoc;
    var context := OperatorPrecedence(op);
    var kl, kr := ShowKeys(c, l, context), [S(OperatorText(op))] + ShowKeys(c, r, context);
    AtSplit(toks, i, kl, kr);
    AtFirst(toks, i + |kl|, kr);
    if KeywordFree(c, l) {
      var left := ShowParses(c, l, context, toks, i, bindingPower);
      ChainFails(c, op, r, toks, i + |kl|, bindingPower, left, Reassoc(l));
    } else {
      ShowFails(c, l, context, toks, i, bindingPower);
    }
  }

  lemma {:induction false} ShowFails(c: Codec, e: Expr, context: nat, toks: seq<Token>, i: nat, bindingPower: int)
    requires Printable(c, e) && !KeywordFree(c, e) && Stream(toks) && At(toks, i, ShowKeys(c, e, context))
    requires bindingPower <= LoosestIn(e, context)
    requires MayFollowIn(e, context, KeyForToken(toks[i + |ShowKeys(c, e, context)|]))
    ensures ParseExpression(GRAMMAR, toks, i, bindingPower).Err?
    decreases e, 2
  {
    hide At, ParseExpression, KeywordFree, Printable, BodyKeys;
    if Precedence(e) < context {
      var keys := BodyKeys(c, e);
      AtOne(toks, i, S("("), keys + [S(")")]);
      AtLast(toks, i + 1, keys, S(")"));
      BodyFails(c, e, toks, i + 1, 0);
      GroupFails(toks, i, bindingPower);
    } else {
      BodyFails(c, e, toks, i, bindingPower);
    }
  }

  lemma {:induction false} ChainFails(c: Codec, op: Operator, r: Expr, toks: seq<Token>, pos: nat, bindingPower: int,
                                      left: Tree, le: Expr)
    requires Printable(c, r) && !KeywordFree(c, r) && Stream(toks)
    requires At(toks, pos, [S(OperatorText(op))] + ShowKeys(c, r, OperatorPrecedence(op)))
    requires bindingPower <= BindingPower(op) && Build(c, left) == Built(le)
    requires MayFollow(Binary(op, le, r), KeyForToken(toks[pos + 1 + |ShowKeys(c, r, OperatorPrecedence(op))|]))
    ensures LeftLoop(GRAMMAR, toks, pos, bindingPower, left).Err?
    decreases r, 3
  {
    hide At, ParseNull, ParseExpression, LeftLoop, Build, ParsesTo, ShowKeys, Graft, Reassoc;
    var context, sign := OperatorPrecedence(op), S(OperatorText(op));
    if IsChain(r, op) {
      var first, second := ShowKeys(c, r.left, context), ShowKeys(c, r.right, context);
      ChainKeys(c, op, r);
      ChainAt(toks, pos, sign, first, second);
      if KeywordFree(c, r.left) {
        var longer := ChainParses(c, op, r.left, toks, pos, bindingPower, left, le);
        ChainFails(c, op, r.right, toks, pos + 1 + |first|, bindingPower, longer, Graft(op, le, Reassoc(r.left)));
      } else {
        ChainFails(c, op, r.left, toks, pos, bindingPower, left, le);
      }
    } else {
      AtOne(toks, pos, sign, ShowKeys(c, r, context));
      AtFirst(toks, pos + 1, ShowKeys(c, r, context));
      ShowFails(c, r, context, toks, pos + 1, BindingPower(op) + 1);
      OperatorFails(op, toks, pos, bindingPower, left);
    }
  }

  // ---------------------------------------------------------------------------
  // The round trip

  datatype Outcome = Accepted(e: Expr) | Rejected(span: Span, fault: Fault) | Malformed(error: ParseError)

  /** ParseExpression of the configuration language. */
  function ParseDomainExpression(c: Codec, input: string): Outcome {
    GrammarValid();
    match Parse(GRAMMAR, input)
    case Failure(error) => Malformed(error)
    case Success(tree) =>
      match Build(c, tree)
      case Built(e) => Accepted(e)
      case Faulty(span, fault) => Rejected(span, fault)
  }

  /**
   * Printing and parsing back gives the left-reassociated expression exactly when no argument prints as a keyword;
   * otherwise the text does not parse at all.
   */
  lemma ExprStringReparses(c: Codec, e: Expr)
    requires Printable(c, e)
    ensures KeywordFree(c, e) <==> ParseDomainExpression(c, ExprString(c, e)) == Accepted(Reassoc(e))
    ensures !KeywordFree(c, e) <==> ParseDomainExpression(c, ExprString(c, e)).Malformed?
  {
    hide Reads, At, ParseExpression, LeftLoop, Parse, Valid, KeywordFree, Printable, Build, Reassoc, Show, ShowKeys;
    var text, keys := ExprString(c, e), ShowKeys(c, e, 0);
    assert Delimited(TABLE, "");
    ShowReads(c, e, 0, "");
    NoEOFKeys(c, e);
    assert NoEOF(keys);
    GrammarValid();
    var toks := TextParses(GRAMMAR, text, keys);
    if KeywordFree(c, e) {
      var tree := ShowParses(c, e, 0, toks, 0, 0);
      LoopEnds(toks, |keys|, 0, tree);
    } else {
      ShowFails(c, e, 0, toks, 0, 0);
    }
  }

  /** The printed text gives back the expression itself exactly when, besides, its chains lean left. */
  lemma ExprStringRoundTrips(c: Codec, e: Expr)
    requires Printable(c, e)
    ensures ParseDomainExpression(c, ExprString(c, e)) == Accepted(e) <==> KeywordFree(c, e) && LeansLeft(e)
  {
    hide Printable, KeywordFree, LeansLeft, Reassoc, Parse, Build, Show;
    ExprStringReparses(c, e);
    ReassocLeansLeft(e);
  }

  /** `true && (true && false)` prints without its parentheses and comes back regrouped. */
  lemma StructureLost(c: Codec)
    ensures var yes, no := Literal(true), Literal(false);
      var e, regrouped := Binary(AndOp, yes, Binary(AndOp, yes, no)), Binary(AndOp, Binary(AndOp, yes, yes), no);
      ParseDomainExpression(c, ExprString(c, e)) == Accepted(regrouped) && regrouped != e
  {
    hide Parse, Build, Show;
    var yes, no := Literal(true), Literal(false);
    var inner := Binary(AndOp, yes, no);
    var e := Binary(AndOp, yes, inner);
    assert Printable(c, inner) && KeywordFree(c, inner);
    assert Printable(c, e) && KeywordFree(c, e);
    ExprStringReparses(c, e);
    assert Reassoc(inner) == inner;
    assert Graft(AndOp, yes, inner) == Binary(AndOp, Graft(AndOp, yes, yes), no);
  }

  /** For whatever was parsed, printing gives stable text with the same meaning, as long as it can be read. */
  lemma ParsedExpressionsReparse(c: Codec, input: string, name: string)
    requires GoodCodec(c) && ParseDomainExpression(c, input).Accepted?
    ensures var e := ParseDomainExpression(c, input).e;
      var again := ParseDomainExpression(c, ExprString(c, e));
      && (KeywordFree(c, e) <==> again.Accepted?)
      && (again == Accepted(e) <==> KeywordFree(c, e) && LeansLeft(e))
      && (again.Accepted? ==>
        && again.e == Reassoc(e) && LeansLeft(again.e)
        && Evaluate(again.e, name) == Evaluate(e, name)
        && ExprString(c, again.e) == ExprString(c, e))
  {
    hide Parse, Valid, KeywordFree, Printable, Build, Reassoc, Show, GoodCodec, LeansLeft;
    GrammarValid();
    BuildIsPrintable(c, Parse(GRAMMAR, input).tree);
    var e := ParseDomainExpression(c, input).e;
    ExprStringReparses(c, e);
    ExprStringRoundTrips(c, e);
    ReassocLeansLeft(e);
    ReassocMeaning(e, name);
    ReassocText(c, e, 0);
  }

  lemma OneDomainBuilds(c: Codec, tree: Tree, text: string, d: Domain)
    requires tree.Op? && tree.id == "is(...)" && |tree.args| == 1 && FlattensTo(tree.args[0], [text])
    requires c.newDomain(text) == TooFewLabels(d)
    ensures Build(c, tree) == Built(Is([d]))
  {
    var tokens := FlattenList(tree.args[0]).value;
    assert |tokens| == 1 && tokens[0].text == text && tokens[..0] == [];
    assert KeepDomains(c, tokens[..0]) == Built([]);
    assert [] + [d] == [d];
    assert KeepDomains(c, tokens) == Built([d]);
  }

  lemma OneArgumentText(text: string)
    ensures Call("is", [text]) == "is(" + text + ")"
    ensures CallKeys("is", [text]) == [A("is"), S("("), A(text), S(")")]
  {
    assert [text][1..] == [];
    assert Join([text]) == text + "";
    assert text + "" == text;
    assert "is" + ("(" + (text + ")")) == "is(" + text + ")";
  }

  lemma OneArgumentReads(text: string)
    requires ArgumentText(text)
    ensures Reads(TABLE, "is(" + text + ")", CallKeys("is", [text]), "") && NoEOF(CallKeys("is", [text]))
  {
    assert ArgumentTexts([text]);
    OneArgumentText(text);
    hide Reads, ArgumentTexts, Call, CallKeys;
    CallReads("is", [text], "");
  }

  lemma OneArgumentTokens(toks: seq<Token>, text: string) returns (tree: Tree)
    requires !IsKeyword(text) && Stream(toks) && At(toks, 0, CallKeys("is", [text]))
      && |toks| == |CallKeys("is", [text])| + 1
    ensures |toks| > 0 && ParseExpression(GRAMMAR, toks, 0, 0) == Ok(tree, |toks| - 1)
    ensures tree.Op? && tree.id == "is(...)" && |tree.args| == 1 && FlattensTo(tree.args[0], [text])
  {
    hide At, ParseNull, LeftLoop, ParseExpression, FlattensTo, CallKeys;
    tree := FullCallParses(toks, 0, "is", [text]);
    ExpressionIsLoop(GRAMMAR, toks, 0, 0, tree, |toks| - 1);
    EndsAtEOF(toks, |toks| - 1, tree);
  }

  /** A call of is with one argument parses. */
  lemma OneArgumentParses(text: string) returns (tree: Tree)
    requires ArgumentText(text) && !IsKeyword(text)
    ensures Valid(GRAMMAR) && Parse(GRAMMAR, "is(" + text + ")") == Success(tree)
    ensures tree.Op? && tree.id == "is(...)" && |tree.args| == 1 && FlattensTo(tree.args[0], [text])
  {
    hide Parse, Valid, Reads, At, NoEOF, ParseExpression, FlattensTo, CallKeys, ArgumentText, IsKeyword, Stream;
    OneArgumentReads(text);
    OneArgumentText(text);
    GrammarValid();
    var toks := TextParses(GRAMMAR, "is(" + text + ")", CallKeys("is", [text]));
    tree := OneArgumentTokens(toks, text);
  }

  lemma EndsAtEOF(toks: seq<Token>, pos: nat, tree: Tree)
    requires Stream(toks) && pos == |toks| - 1
    ensures LeftLoop(GRAMMAR, toks, pos, 0, tree) == Ok(tree, pos)
  {
    hide LeftLoop;
    LoopEnds(toks, pos, 0, tree);
  }

  /** "is(is.)" is accepted, but prints as "is(is)", which is not. */
  lemma KeywordCollision(c: Codec)
    requires GoodCodec(c) && c.newDomain("is.") == TooFewLabels(FQDN("is")) && c.showDomain(FQDN("is")) == "is"
    ensures ParseDomainExpression(c, "is(is.)") == Accepted(Is([FQDN("is")]))
    ensures ParseDomainExpression(c, ExprString(c, Is([FQDN("is")]))).Malformed?
  {
    var e := Is([FQDN("is")]);
    assert Printable(c, e) by { assert Keeps(c.newDomain("is."), FQDN("is")); }
    assert !KeywordFree(c, e) by { assert DomainTexts(c, [FQDN("is")])[0] == "is"; }
    assert ArgumentText("is.") && !IsKeyword("is.");
    assert "is(" + "is." + ")" == "is(is.)";
    hide Printable, KeywordFree, Parse, Valid, FlattensTo, Build, GoodCodec, ArgumentText;
    ExprStringReparses(c, e);
    var tree := OneArgumentParses("is.");
    OneDomainBuilds(c, tree, "is.", FQDN("is"));
  }
}
