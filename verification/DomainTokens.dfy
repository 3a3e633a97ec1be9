/** The domain-expression grammar is valid, and printed expressions tokenize as expected. */
module DomainTokens {
  import opened DomainExpr
  import opened Tokenizer
  import opened Grammar
  import opened Reading
  import opened Operators
  import opened DomainText

  // ---------------------------------------------------------------------------
  // The grammar is valid

  lemma ArgumentsStandAlone(text: string)
    requires ArgumentText(text)
    ensures Standalone(TABLE, A(text))
  {
  }

  lemma WordsAreArguments()
    ensures ArgumentText("is") && ArgumentText("sub") && ArgumentText("true") && ArgumentText("false")
  {
  }

  /** A valid rule that does not accept the empty input and whose keywords are atoms. */
  predicate Acceptable(r: Rule) {
    ValidRule(r) && !r.empty && forall k :: 0 <= k < |r.pattern| && r.pattern[k].Keyword? ==>
      OneAtom(TABLE, r.pattern[k].text)
  }

  lemma LiteralsValid()
    ensures ValidLiteral("is") && ValidLiteral("sub") && ValidLiteral("(") && ValidLiteral(")") && ValidLiteral("!")
    ensures ValidLiteral("&&") && ValidLiteral("||") && ValidLiteral(",")
  {
  }

  lemma NameIsAtom(name: string)
    requires IsKeyword(name)
    ensures OneAtom(TABLE, name)
  {
    OperatorsValid(TABLE);
    WordsAreArguments();
    ArgumentsStandAlone(name);
    hide *;
    KeywordIsAtom(TABLE, name);
  }

  /** What Acceptable asks of one part. */
  predicate GoodPart(p: Part) {
    match p
    case Keyword(text) => ValidLiteral(text) && OneAtom(TABLE, text)
    case Symbol(text) => ValidLiteral(text)
    case Hole(bindingPower) => bindingPower >= 0
  }

  lemma GoodParts(r: Rule)
    requires IsNull(r) && forall k :: 0 <= k < |r.pattern| ==> GoodPart(r.pattern[k])
    ensures Acceptable(r)
  {
    hide OneAtom, ValidLiteral;
  }

  lemma EmptyAcceptable(name: string, id: string)
    requires IsKeyword(name)
    ensures Acceptable(Rule(id, [Keyword(name), Symbol("("), Symbol(")")], false, false))
  {
    LiteralsValid();
    NameIsAtom(name);
    assert GoodPart(Keyword(name)) && GoodPart(Symbol("(")) && GoodPart(Symbol(")"));
    hide GoodPart, Acceptable, IsKeyword;
    GoodParts(Rule(id, [Keyword(name), Symbol("("), Symbol(")")], false, false));
  }

  lemma FullAcceptable(name: string, id: string)
    requires IsKeyword(name)
    ensures Acceptable(Rule(id, [Keyword(name), Symbol("("), Hole(0), Symbol(")")], false, false))
  {
    LiteralsValid();
    NameIsAtom(name);
    assert GoodPart(Keyword(name)) && GoodPart(Symbol("(")) && GoodPart(Hole(0)) && GoodPart(Symbol(")"));
    hide GoodPart, Acceptable, IsKeyword;
    GoodParts(Rule(id, [Keyword(name), Symbol("("), Hole(0), Symbol(")")], false, false));
  }

  lemma CallsAcceptable()
    ensures Acceptable(IS_EMPTY) && Acceptable(IS_CALL) && Acceptable(SUB_EMPTY) && Acceptable(SUB_CALL)
  {
    hide Acceptable;
    EmptyAcceptable("is", "is()");
    FullAcceptable("is", "is(...)");
    EmptyAcceptable("sub", "sub()");
    FullAcceptable("sub", "sub(...)");
  }

  lemma PrefixesAcceptable()
    ensures Acceptable(NOT) && Acceptable(GROUP) && Acceptable(LEADING_COMMA) && Acceptable(COMMA_ONLY)
  {
    LiteralsValid();
    hide OneAtom, ValidLiteral;
  }

  lemma ExtensionsAcceptable()
    ensures Acceptable(AND) && Acceptable(OR) && Acceptable(COMMA) && Acceptable(TRAILING_COMMA)
      && Acceptable(MISSING_COMMA)
  {
    LiteralsValid();
    hide OneAtom, ValidLiteral;
  }

  lemma SymbolDeclared(s: string)
    ensures s in TABLE.symbols <==> HasSymbol(RULES, s)
  {
    SymbolCases(TABLE, s);
    assert RULES[6].pattern[1] == Symbol("&&");
    assert RULES[7].pattern[1] == Symbol("||");
    assert RULES[4].pattern[0] == Symbol("!");
    assert RULES[5].pattern[0] == Symbol("(");
    assert RULES[5].pattern[2] == Symbol(")");
    assert RULES[9].pattern[0] == Symbol(",");
  }

  lemma AcceptableRules(rules: seq<Rule>)
    requires forall i :: 0 <= i < |rules| ==> Acceptable(rules[i])
    ensures (forall i :: 0 <= i < |rules| ==> ValidRule(rules[i])) && OneEmpty(rules) && KeywordsAreAtoms(rules, TABLE)
  {
    hide OneAtom, ValidRule;
  }

  /** NewPratt accepts the grammar. */
  lemma GrammarValid()
    ensures Valid(GRAMMAR)
  {
    hide OneAtom, ValidTable, HasSymbol, ValidRule, OneEmpty, KeywordsAreAtoms, Acceptable;
    OperatorsValid(TABLE);
    forall s: string ensures s in TABLE.symbols <==> HasSymbol(RULES, s) { SymbolDeclared(s); }
    CallsAcceptable();
    PrefixesAcceptable();
    ExtensionsAcceptable();
    AcceptableRules(RULES);
  }

  // ---------------------------------------------------------------------------
  // Rule lookup

  function NullForms(key: TokenKey): seq<Rule> {
    if key == A("is") then [IS_EMPTY, IS_CALL]
    else if key == A("sub") then [SUB_EMPTY, SUB_CALL]
    else if key == S("!") then [NOT]
    else if key == S("(") then [GROUP]
    else if key == S(",") then [LEADING_COMMA, COMMA_ONLY]
    else []
  }

  lemma CallsLookup(key: TokenKey)
    ensures NullRules(CALLS, key) ==
            if key == A("is") then [IS_EMPTY, IS_CALL] else if key == A("sub") then [SUB_EMPTY, SUB_CALL] else []
  {
    hide NullRules;
    NullPair(IS_EMPTY, IS_CALL, key);
    NullPair(SUB_EMPTY, SUB_CALL, key);
    NullConcat([IS_EMPTY, IS_CALL], [SUB_EMPTY, SUB_CALL], key);
    assert CALLS == [IS_EMPTY, IS_CALL] + [SUB_EMPTY, SUB_CALL];
  }

  lemma PunctuationLookup(key: TokenKey)
    ensures NullRules(PREFIXES, key) == if key == S("!") then [NOT] else if key == S("(") then [GROUP] else []
    ensures NullRules(COMMAS, key) == if key == S(",") then [LEADING_COMMA, COMMA_ONLY] else []
  {
    hide NullRules;
    NullPair(NOT, GROUP, key);
    NullPair(LEADING_COMMA, COMMA_ONLY, key);
  }

  lemma NullSections(key: TokenKey)
    ensures NullRules(RULES, key) == (NullRules(CALLS, key) + NullRules(PREFIXES, key)) + NullRules(COMMAS, key)
  {
    NoNullRules(OPERATORS, key);
    NoNullRules(LIST_EXTENSIONS, key);
    hide NullRules;
    NullConcat(CALLS, PREFIXES, key);
    NullConcat(CALLS + PREFIXES, OPERATORS, key);
    NullConcat(COMMAS, LIST_EXTENSIONS, key);
    NullConcat((CALLS + PREFIXES) + OPERATORS, LIST_FORMS, key);
  }

  lemma NullLookup(key: TokenKey)
    ensures NullRules(RULES, key) == NullForms(key)
  {
    hide NullRules;
    NullSections(key);
    CallsLookup(key);
    PunctuationLookup(key);
  }

  lemma ImplicitOnly(r: Rule, key: TokenKey)
    requires IsImplicit(r)
    ensures LeftRules([r], key) == [] && ImplicitRules([r]) == [r]
  {
    hide LeftRules, ImplicitRules;
    NoRules(key);
    LeftSnoc([], r, key);
    ImplicitSnoc([], r);
    assert [] + [r] == [r];
  }

  lemma ListLookup(key: TokenKey)
    ensures LeftRules(LIST_EXTENSIONS, key) == if key == S(",") then [COMMA, TRAILING_COMMA] else []
    ensures ImplicitRules(LIST_EXTENSIONS) == [MISSING_COMMA]
  {
    hide LeftRules, ImplicitRules;
    LeftPair(COMMA, TRAILING_COMMA, key);
    ImplicitOnly(MISSING_COMMA, key);
    LeftConcat([COMMA, TRAILING_COMMA], [MISSING_COMMA], key);
    ImplicitConcat([COMMA, TRAILING_COMMA], [MISSING_COMMA]);
    assert [COMMA, TRAILING_COMMA] + [MISSING_COMMA] == LIST_EXTENSIONS;
  }

  predicate AllNull(rules: seq<Rule>) {
    forall i :: 0 <= i < |rules| ==> IsNull(rules[i])
  }

  /** Rules that start with a token matter to no left lookup. */
  lemma SkipNulls(a: seq<Rule>, b: seq<Rule>, key: TokenKey)
    ensures AllNull(a) ==> LeftRules(a + b, key) == LeftRules(b, key) && ImplicitRules(a + b) == ImplicitRules(b)
    ensures AllNull(b) ==> LeftRules(a + b, key) == LeftRules(a, key) && ImplicitRules(a + b) == ImplicitRules(a)
  {
    hide LeftRules, ImplicitRules;
    LeftConcat(a, b, key);
    ImplicitConcat(a, b);
    if AllNull(a) { NoLeftAmongNulls(a, key); }
    if AllNull(b) { NoLeftAmongNulls(b, key); }
  }

  lemma OperatorsLeft(key: TokenKey)
    ensures LeftRules((CALLS + PREFIXES) + OPERATORS, key) == LeftRules(OPERATORS, key)
    ensures ImplicitRules((CALLS + PREFIXES) + OPERATORS) == []
  {
    hide LeftRules, ImplicitRules;
    assert AllNull(CALLS + PREFIXES);
    SkipNulls(CALLS + PREFIXES, OPERATORS, key);
    LeftPair(AND, OR, key);
  }

  lemma SkipBetween(a: seq<Rule>, d: seq<Rule>, e: seq<Rule>, key: TokenKey)
    requires AllNull(d)
    ensures LeftRules(a + (d + e), key) == LeftRules(a, key) + LeftRules(e, key)
    ensures ImplicitRules(a + (d + e)) == ImplicitRules(a) + ImplicitRules(e)
  {
    hide LeftRules, ImplicitRules, AllNull;
    SkipNulls(d, e, key);
    LeftConcat(a, d + e, key);
    ImplicitConcat(a, d + e);
  }

  lemma Sections(key: TokenKey)
    ensures LeftRules(RULES, key) == LeftRules(OPERATORS, key) + LeftRules(LIST_EXTENSIONS, key)
    ensures ImplicitRules(RULES) == ImplicitRules(LIST_EXTENSIONS)
  {
    assert AllNull(COMMAS);
    hide LeftRules, ImplicitRules, AllNull;
    OperatorsLeft(key);
    SkipBetween((CALLS + PREFIXES) + OPERATORS, COMMAS, LIST_EXTENSIONS, key);
  }

  lemma LeftLookup(key: TokenKey)
    ensures LeftRules(RULES, key) ==
            if key == S("&&") then [AND] else if key == S("||") then [OR]
            else if key == S(",") then [COMMA, TRAILING_COMMA] else []
    ensures ImplicitRules(RULES) == [MISSING_COMMA]
  {
    hide LeftRules, ImplicitRules;
    Sections(key);
    LeftPair(AND, OR, key);
    ListLookup(key);
  }

  /** The forms that extend an expression before a token. */
  function LeftForms(key: TokenKey, bindingPower: int): seq<Rule> {
    if key == S("&&") then if bindingPower <= 20 then [AND] else []
    else if key == S("||") then if bindingPower <= 10 then [OR] else []
    else if key == S(",") then if bindingPower <= 5 then [COMMA, TRAILING_COMMA] else []
    else if key.kind.AtomToken? || key == S("!") || key == S("(") then if bindingPower <= 5 then [MISSING_COMMA] else []
    else []
  }

  lemma ExplicitSelection(key: TokenKey, bindingPower: int)
    ensures Eligible(LeftRules(RULES, key), bindingPower) ==
            if key == S("&&") && bindingPower <= 20 then [AND]
            else if key == S("||") && bindingPower <= 10 then [OR]
            else if key == S(",") && bindingPower <= 5 then [COMMA, TRAILING_COMMA]
            else []
  {
    hide LeftRules;
    LeftLookup(key);
    var rules := LeftRules(RULES, key);
    if key == S("&&") {
      EligibleOne(AND, bindingPower);
    } else if key == S("||") {
      EligibleOne(OR, bindingPower);
    } else if key == S(",") {
      EligiblePair(COMMA, TRAILING_COMMA, bindingPower);
    } else {
      assert |rules| == 0;
      return;
    }
    hide Eligible;
  }

  lemma Startable(token: Token)
    ensures CanStartExpression(GRAMMAR, token) <==>
            (var key := KeyForToken(token); key.kind.AtomToken? || key == S("!") || key == S("(") || key == S(","))
  {
    NullLookup(KeyForToken(token));
    hide NullRules;
  }

  lemma LeftSelection(token: Token, bindingPower: int)
    ensures SelectLeftForms(GRAMMAR, token, bindingPower) == LeftForms(KeyForToken(token), bindingPower)
  {
    hide LeftRules, ImplicitRules, Eligible, CanStartExpression;
    ExplicitSelection(KeyForToken(token), bindingPower);
    Startable(token);
    LeftLookup(KeyForToken(token));
    EligibleOne(MISSING_COMMA, bindingPower);
  }

  // ---------------------------------------------------------------------------
  // The tokens of printed text

  function ListKeys(texts: seq<string>): seq<TokenKey> {
    if |texts| == 0 then [] else [A(texts[0])] + RestKeys(texts[1..])
  }

  function RestKeys(texts: seq<string>): seq<TokenKey> {
    if |texts| == 0 then [] else [S(",")] + ([A(texts[0])] + RestKeys(texts[1..]))
  }

  function CallKeys(name: string, texts: seq<string>): seq<TokenKey> {
    [A(name)] + ([S("(")] + (ListKeys(texts) + [S(")")]))
  }

  function BodyKeys(c: Codec, e: Expr): (keys: seq<TokenKey>)
    ensures |keys| > 0
    decreases e, 0
  {
    match e
    case Literal(value) => [A(if value then "true" else "false")]
    case Is(ds) => CallKeys("is", DomainTexts(c, ds))
    case Sub(ss) => CallKeys("sub", SuffixTexts(c, ss))
    case Not(x) => [S("!")] + ShowKeys(c, x, 3)
    case Binary(op, l, r) =>
      var context := OperatorPrecedence(op);
      ShowKeys(c, l, context) + ([S(OperatorText(op))] + ShowKeys(c, r, context))
  }

  function ShowKeys(c: Codec, e: Expr, context: nat): (keys: seq<TokenKey>)
    ensures |keys| > 0
    decreases e, 1
  {
    if Precedence(e) < context then [S("(")] + (BodyKeys(c, e) + [S(")")]) else BodyKeys(c, e)
  }

  lemma ReadsArgument(text: string, rest: string)
    requires ArgumentText(text) && Delimited(TABLE, rest)
    ensures Reads(TABLE, text, [A(text)], rest)
  {
    OperatorsValid(TABLE);
    ArgumentsStandAlone(text);
    hide *;
    ReadsAtom(TABLE, text, rest);
  }

  /** Every symbol and the space end an atom. */
  lemma Ends(first: string, rest: string)
    requires first in ["(", ")", ",", " "]
    ensures Delimited(TABLE, first + rest)
  {
    assert (first + rest)[0] == first[0];
    assert IsSpace(' ');
    hide IsSpace;
  }

  predicate ArgumentTexts(texts: seq<string>) {
    forall i :: 0 <= i < |texts| ==> ArgumentText(texts[i])
  }

  /** ", " text tail. */
  lemma SeparatedReads(text: string, tail: string, keys: seq<TokenKey>, rest: string)
    requires ArgumentText(text) && Reads(TABLE, tail, keys, rest) && Delimited(TABLE, tail + rest)
    ensures Reads(TABLE, "," + (" " + (text + tail)), [S(",")] + ([A(text)] + keys), rest)
  {
    hide Reads, Delimited, ArgumentText;
    ReadsArgument(text, tail + rest);
    ReadsConcat(TABLE, text, [A(text)], tail, keys, rest);
    ReadsSpace(TABLE, (text + tail) + rest);
    ReadsConcat(TABLE, " ", [], text + tail, [A(text)] + keys, rest);
    assert [] + ([A(text)] + keys) == [A(text)] + keys;
    CommaReads((" " + (text + tail)) + rest);
    ReadsConcat(TABLE, ",", [S(",")], " " + (text + tail), [A(text)] + keys, rest);
  }

  lemma CommaReads(rest: string)
    ensures Reads(TABLE, ",", [S(",")], rest)
  {
    OperatorsValid(TABLE);
    SymbolCases(TABLE, ",");
    hide ValidTable, DistinctStarts, Reads;
    ReadsDistinct(TABLE, ",", rest);
  }

  lemma {:induction false} RestReads(texts: seq<string>, rest: string)
    requires ArgumentTexts(texts) && Delimited(TABLE, rest)
    ensures Reads(TABLE, JoinRest(texts), RestKeys(texts), rest) && Delimited(TABLE, JoinRest(texts) + rest)
  {
    hide Reads, Delimited, ArgumentText;
    if |texts| == 0 {
      assert "" + rest == rest;
      ReadsNothing(rest);
    } else {
      var text, tail, keys := texts[0], JoinRest(texts[1..]), RestKeys(texts[1..]);
      RestReads(texts[1..], rest);
      SeparatedReads(text, tail, keys, rest);
      Ends(",", (" " + (text + tail)) + rest);
      assert "," + ((" " + (text + tail)) + rest) == ("," + (" " + (text + tail))) + rest;
    }
  }

  lemma ReadsNothing(rest: string)
    ensures Reads(TABLE, "", [], rest)
  {
    hide Lex;
    forall off: nat ensures ReadsAt(TABLE, "", [], rest, off) {
      assert "" + rest == rest;
      PrependNothing(Lex(TABLE, rest, off));
      assert Keys([]) == [];
    }
  }

  lemma JoinReads(texts: seq<string>, rest: string)
    requires ArgumentTexts(texts) && Delimited(TABLE, rest)
    ensures Reads(TABLE, Join(texts), ListKeys(texts), rest)
  {
    hide Reads, Delimited, ArgumentText;
    if |texts| == 0 {
      ReadsNothing(rest);
    } else {
      RestReads(texts[1..], rest);
      ReadsArgument(texts[0], JoinRest(texts[1..]) + rest);
      ReadsConcat(TABLE, texts[0], [A(texts[0])], JoinRest(texts[1..]), RestKeys(texts[1..]), rest);
    }
  }

  lemma CallReads(name: string, texts: seq<string>, rest: string)
    requires IsKeyword(name) && ArgumentTexts(texts)
    ensures Reads(TABLE, Call(name, texts), CallKeys(name, texts), rest)
  {
    WordsAreArguments();
    hide Reads, Delimited, ArgumentText, ArgumentTexts, Join, ListKeys;
    var list := "(" + (Join(texts) + ")");
    Ends(")", rest);
    JoinReads(texts, ")" + rest);
    EnclosedReads(TABLE, Join(texts), ListKeys(texts), rest);
    Ends("(", (Join(texts) + ")") + rest);
    assert "(" + ((Join(texts) + ")") + rest) == list + rest;
    ReadsArgument(name, list + rest);
    ReadsConcat(TABLE, name, [A(name)], list, [S("(")] + (ListKeys(texts) + [S(")")]), rest);
  }

  lemma PrintableTexts(c: Codec, e: Expr)
    requires Printable(c, e)
    ensures e.Is? ==> ArgumentTexts(DomainTexts(c, e.domains))
    ensures e.Sub? ==> ArgumentTexts(SuffixTexts(c, e.suffixes))
  {
    hide ArgumentText;
  }

  lemma {:induction false} BodyReads(c: Codec, e: Expr, rest: string)
    requires Printable(c, e) && Delimited(TABLE, rest)
    ensures Reads(TABLE, Body(c, e), BodyKeys(c, e), rest)
    decreases e, 0
  {
    hide Reads, Delimited, ArgumentTexts, GoodDomainText, GoodSuffixText, Show, ShowKeys, Call, CallKeys;
    match e
    case Literal(value) =>
      WordsAreArguments();
      ReadsArgument(if value then "true" else "false", rest);
    case Is(ds) =>
      PrintableTexts(c, e);
      CallReads("is", DomainTexts(c, ds), rest);
    case Sub(ss) =>
      PrintableTexts(c, e);
      CallReads("sub", SuffixTexts(c, ss), rest);
    case Not(x) =>
      ShowReads(c, x, 3, rest);
      NegatedReads(TABLE, Show(c, x, 3), ShowKeys(c, x, 3), rest);
    case Binary(op, l, r) =>
      var context, sign := OperatorPrecedence(op), OperatorText(op);
      ShowReads(c, r, context, rest);
      var right := sign + (" " + Show(c, r, context));
      Ends(" ", right + rest);
      assert " " + (right + rest) == (" " + right) + rest;
      ShowReads(c, l, context, (" " + right) + rest);
      InfixReads(TABLE, Show(c, l, context), ShowKeys(c, l, context), sign,
                 Show(c, r, context), ShowKeys(c, r, context), rest);
  }

  lemma {:induction false} ShowReads(c: Codec, e: Expr, context: nat, rest: string)
    requires Printable(c, e) && Delimited(TABLE, rest)
    ensures Reads(TABLE, Show(c, e, context), ShowKeys(c, e, context), rest)
    decreases e, 1
  {
    hide Reads, Delimited, Printable, Body, BodyKeys;
    if Precedence(e) < context {
      Ends(")", rest);
      BodyReads(c, e, ")" + rest);
      EnclosedReads(TABLE, Body(c, e), BodyKeys(c, e), rest);
    } else {
      BodyReads(c, e, rest);
    }
  }

  lemma {:induction false} NoEOFKeys(c: Codec, e: Expr)
    ensures forall i :: 0 <= i < |BodyKeys(c, e)| ==> !BodyKeys(c, e)[i].kind.EOFToken?
    ensures forall context :: NoEOF(ShowKeys(c, e, context))
  {
    match e
    case Literal(_) =>
    case Is(ds) => NoEOFList(DomainTexts(c, ds));
    case Sub(ss) => NoEOFList(SuffixTexts(c, ss));
    case Not(x) => NoEOFKeys(c, x); assert NoEOF(ShowKeys(c, x, 3));
    case Binary(op, l, r) =>
      NoEOFKeys(c, l);
      NoEOFKeys(c, r);
      var context := OperatorPrecedence(op);
      assert NoEOF(ShowKeys(c, l, context)) && NoEOF(ShowKeys(c, r, context));
  }

  lemma {:induction false} NoEOFList(texts: seq<string>)
    ensures NoEOF(RestKeys(texts)) && NoEOF(ListKeys(texts))
  {
    if |texts| > 0 { NoEOFList(texts[1..]); }
  }
}
