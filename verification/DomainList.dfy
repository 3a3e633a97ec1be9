/** Domain lists: every text parses, and no separator loses, repeats or reorders a domain. */
module DomainList {
  import opened Domains
  import opened Tokenizer
  import opened Grammar
  import opened PrattSpec
  import opened Reading
  import opened DomainText
  import DomainTokens

  const EMPTY := Rule("", [], true, false)

  const LIST_RULES: seq<Rule> := [EMPTY] + LIST_FORMS

  const LIST_TABLE := Table([","], {','})

  const LIST_GRAMMAR := Pratt(LIST_RULES, LIST_TABLE)

  lemma CommaIsSymbol(s: string)
    ensures s in LIST_TABLE.symbols <==> s == ","
  {
    assert LIST_TABLE.symbols[0] == ",";
  }

  lemma ListTableValid()
    ensures ValidTable(LIST_TABLE)
  {
    forall c ensures c in LIST_TABLE.leading <==> exists s :: s in LIST_TABLE.symbols && s != "" && s[0] == c {
      CommaIsSymbol(",");
      assert ","[0] == ',';
      forall s | s in LIST_TABLE.symbols && s != "" && s[0] == c ensures c in LIST_TABLE.leading { CommaIsSymbol(s); }
    }
  }

  /** NewPratt accepts the list grammar. */
  lemma ListGrammarValid()
    ensures Valid(LIST_GRAMMAR)
  {
    hide ValidTable, ValidRule, OneAtom, HasSymbol;
    ListTableValid();
    ListRulesValid();
    forall s: string ensures s in LIST_TABLE.symbols <==> HasSymbol(LIST_RULES, s) { CommaDeclared(s); }
  }

  lemma ListRulesValid()
    ensures forall i :: 0 <= i < |LIST_RULES| ==> ValidRule(LIST_RULES[i]) && (LIST_RULES[i].empty <==> i == 0)
    ensures forall i, k :: 0 <= i < |LIST_RULES| && 0 <= k < |LIST_RULES[i].pattern| ==>
      !LIST_RULES[i].pattern[k].Keyword?
  {
    assert ValidLiteral(",");
    hide ValidLiteral;
    assert ValidRule(LEADING_COMMA) && ValidRule(COMMA_ONLY) && ValidRule(COMMA);
    assert ValidRule(TRAILING_COMMA) && ValidRule(MISSING_COMMA);
  }

  lemma CommaDeclared(s: string)
    ensures s in LIST_TABLE.symbols <==> HasSymbol(LIST_RULES, s)
  {
    CommaIsSymbol(s);
    assert LIST_RULES[2].pattern[0] == Symbol(",");
    if HasSymbol(LIST_RULES, s) { ListSymbols(s); }
  }

  lemma ListSymbols(s: string)
    requires HasSymbol(LIST_RULES, s)
    ensures s == ","
  {
  }

  // ---------------------------------------------------------------------------
  // Every text is a list

  /** The only reserved character is a symbol by itself. */
  lemma {:induction false} ListLexes(s: string, off: nat)
    ensures Lex(LIST_TABLE, s, off).Tokens?
    ensures forall i :: 0 <= i < |Lex(LIST_TABLE, s, off).tokens| ==> ListToken(Lex(LIST_TABLE, s, off).tokens[i])
    decreases |s|
  {
    hide IsSpace;
    if s == "" {
    } else if IsSpace(s[0]) {
      ListLexes(s[1..], off + 1);
    } else {
      var symbol := MatchSymbol(LIST_TABLE.symbols, s);
      if symbol != "" {
        SymbolIsComma(s);
        ListLexes(s[|symbol|..], off + |symbol|);
      } else {
        NotComma(s);
        ListLexes(s[1 + AtomTail(LIST_TABLE, s[1..])..], off + 1 + AtomTail(LIST_TABLE, s[1..]));
      }
    }
  }

  predicate ListToken(t: Token) {
    t.kind.AtomToken? || KeyForToken(t) == S(",") || t.kind.EOFToken?
  }

  lemma SymbolIsComma(s: string)
    requires MatchSymbol(LIST_TABLE.symbols, s) != ""
    ensures MatchSymbol(LIST_TABLE.symbols, s) == ","
  {
    assert LIST_TABLE.symbols[1..] == [];
  }

  lemma NotComma(s: string)
    requires s != "" && MatchSymbol(LIST_TABLE.symbols, s) == ""
    ensures s[0] !in LIST_TABLE.leading
  {
    assert "," <= s <==> s[0] == ',';
  }

  lemma ListNulls(key: TokenKey)
    ensures NullRules(LIST_RULES, key) == if key == S(",") then [LEADING_COMMA, COMMA_ONLY] else []
  {
    hide NullRules;
    NoNullRules([EMPTY], key);
    NoNullRules(LIST_EXTENSIONS, key);
    NullPair(LEADING_COMMA, COMMA_ONLY, key);
    NullConcat(COMMAS, LIST_EXTENSIONS, key);
    NullConcat([EMPTY], LIST_FORMS, key);
  }

  lemma ListLefts(key: TokenKey)
    ensures LeftRules(LIST_RULES, key) == if key == S(",") then [COMMA, TRAILING_COMMA] else []
    ensures ImplicitRules(LIST_RULES) == [MISSING_COMMA]
  {
    NoRules(key);
    LeftSnoc([], EMPTY, key);
    ImplicitSnoc([], EMPTY);
    assert [] + [EMPTY] == [EMPTY];
    assert DomainTokens.AllNull(COMMAS);
    hide LeftRules, ImplicitRules, DomainTokens.AllNull;
    DomainTokens.ListLookup(key);
    DomainTokens.SkipBetween([EMPTY], COMMAS, LIST_EXTENSIONS, key);
  }

  lemma ListExplicit(key: TokenKey, bindingPower: int)
    ensures Eligible(LeftRules(LIST_RULES, key), bindingPower) ==
            if key == S(",") && bindingPower <= 5 then [COMMA, TRAILING_COMMA] else []
  {
    hide LeftRules;
    ListLefts(key);
    EligiblePair(COMMA, TRAILING_COMMA, bindingPower);
    if key != S(",") { assert |LeftRules(LIST_RULES, key)| == 0; }
  }

  lemma ListStartable(token: Token)
    ensures CanStartExpression(LIST_GRAMMAR, token) <==> token.kind.AtomToken? || KeyForToken(token) == S(",")
  {
    ListNulls(KeyForToken(token));
    hide NullRules;
  }

  lemma ListSelection(token: Token, bindingPower: int)
    requires ListToken(token)
    ensures SelectLeftForms(LIST_GRAMMAR, token, bindingPower) ==
            if bindingPower > 5 || token.kind.EOFToken? then []
            else if KeyForToken(token) == S(",") then [COMMA, TRAILING_COMMA]
            else [MISSING_COMMA]
  {
    hide LeftRules, ImplicitRules, Eligible, CanStartExpression;
    ListExplicit(KeyForToken(token), bindingPower);
    ListStartable(token);
    ListLefts(KeyForToken(token));
    EligibleOne(MISSING_COMMA, bindingPower);
  }

  /** A stream of atoms and commas. */
  predicate ListStream(toks: seq<Token>) {
    Stream(toks) && forall i :: 0 <= i < |toks| ==> ListToken(toks[i])
  }

  lemma {:induction false} ListNullParses(toks: seq<Token>, pos: nat)
    requires ListStream(toks) && pos + 1 < |toks|
    ensures ParseNull(LIST_GRAMMAR, toks, pos + 1, toks[pos]).Ok?
    decreases |toks| - pos, 0
  {
    ListNulls(KeyForToken(toks[pos]));
    hide NullRules, ParseTail, ParseExpression;
    var first := toks[pos];
    if first.kind.AtomToken? {
      NullAtom(LIST_GRAMMAR, toks, pos + 1, first);
    } else if toks[pos + 1].kind.EOFToken? {
      hide ParseNull;
      EndFails(toks, pos + 1, 6);
      TailHoleFails(LIST_GRAMMAR, toks, pos + 1, LEADING_COMMA, 1, [first], [], first.span);
      TailDone(LIST_GRAMMAR, toks, pos + 1, COMMA_ONLY, [first], [], first.span);
      NullSecond(LIST_GRAMMAR, toks, pos + 1, first, Op(COMMA_ONLY.id, [first], [], first.span), pos + 1);
    } else {
      hide ParseNull;
      ListExpressionParses(toks, pos + 1, 6);
      var child := ParseExpression(LIST_GRAMMAR, toks, pos + 1, 6);
      var tree := PrefixTail(LIST_GRAMMAR, toks, pos, LEADING_COMMA, child.tree, child.pos);
      NullFirst(LIST_GRAMMAR, toks, pos + 1, first, tree, child.pos);
    }
  }

  lemma EndFails(toks: seq<Token>, pos: nat, bindingPower: int)
    requires Stream(toks) && pos < |toks| && toks[pos].kind.EOFToken?
    ensures ParseExpression(LIST_GRAMMAR, toks, pos, bindingPower).Err?
  {
  }

  /** From any token on, a list parses; at the loosest binding power it takes everything that is left. */
  lemma {:induction false} ListExpressionParses(toks: seq<Token>, pos: nat, bindingPower: int)
    requires ListStream(toks) && pos + 1 < |toks|
    ensures var r := ParseExpression(LIST_GRAMMAR, toks, pos, bindingPower);
      r.Ok? && (bindingPower <= 5 ==> r.pos == |toks| - 1)
    decreases |toks| - pos, 2
  {
    hide ParseNull, LeftLoop, ParseExpression;
    ListNullParses(toks, pos);
    var first := ParseNull(LIST_GRAMMAR, toks, pos + 1, toks[pos]);
    assert first.pos >= pos + 1 by { NullAdvances(toks, pos); }
    ExpressionIsLoop(LIST_GRAMMAR, toks, pos, bindingPower, first.tree, first.pos);
    ListLoopParses(toks, first.pos, bindingPower, first.tree);
  }

  lemma NullAdvances(toks: seq<Token>, pos: nat)
    requires Stream(toks) && pos + 1 < |toks| && ParseNull(LIST_GRAMMAR, toks, pos + 1, toks[pos]).Ok?
    ensures var r := ParseNull(LIST_GRAMMAR, toks, pos + 1, toks[pos]); pos + 1 <= r.pos < |toks|
  {
  }

  lemma {:induction false} ListLoopParses(toks: seq<Token>, pos: nat, bindingPower: int, left: Tree)
    requires ListStream(toks) && 0 < pos < |toks|
    ensures var r := LeftLoop(LIST_GRAMMAR, toks, pos, bindingPower, left);
      r.Ok? && (bindingPower <= 5 ==> r.pos == |toks| - 1)
    decreases |toks| - pos, 4
  {
    hide LeftLoop, SelectLeftForms, ListStream, ParseTail;
    ListTokenAt(toks, pos);
    ListSelection(toks[pos], bindingPower);
    if bindingPower > 5 || toks[pos].kind.EOFToken? {
      LoopStops(LIST_GRAMMAR, toks, pos, bindingPower, left);
    } else {
      var tree, next;
      if toks[pos].kind.AtomToken? {
        tree, next := MissingCommaParses(toks, pos, left);
        LoopSteps(LIST_GRAMMAR, toks, pos, bindingPower, left, tree, next);
      } else {
        tree, next := CommaParses(toks, pos, bindingPower, left);
      }
      ListLoopParses(toks, next, bindingPower, tree);
    }
  }

  lemma ListTokenAt(toks: seq<Token>, pos: nat)
    requires ListStream(toks) && pos < |toks|
    ensures ListToken(toks[pos]) && Stream(toks)
  {
  }

  lemma {:induction false} MissingCommaParses(toks: seq<Token>, pos: nat, left: Tree) returns (tree: Tree, next: nat)
    requires ListStream(toks) && pos < |toks| && toks[pos].kind.AtomToken?
    ensures ParseTail(LIST_GRAMMAR, toks, pos, MISSING_COMMA, 1, [], [left], SpanOf(left)) == Ok(tree, next)
    ensures pos < next < |toks|
    decreases |toks| - pos, 3
  {
    hide ParseTail, ParseExpression;
    ListExpressionParses(toks, pos, 6);
    var child := ParseExpression(LIST_GRAMMAR, toks, pos, 6);
    next := child.pos;
    assert pos < next by { ExpressionAdvances(toks, pos, 6); }
    TailHole(LIST_GRAMMAR, toks, pos, MISSING_COMMA, 1, [], [left], SpanOf(left), child.tree, next);
    var span := FromTo(SpanOf(left), SpanOf(child.tree));
    TailDone(LIST_GRAMMAR, toks, next, MISSING_COMMA, [], [left] + [child.tree], span);
    tree := Op(MISSING_COMMA.id, [], [left] + [child.tree], span);
  }

  lemma ExpressionAdvances(toks: seq<Token>, pos: nat, bindingPower: int)
    requires Stream(toks) && pos < |toks| && ParseExpression(LIST_GRAMMAR, toks, pos, bindingPower).Ok?
    ensures pos < ParseExpression(LIST_GRAMMAR, toks, pos, bindingPower).pos < |toks|
  {
  }

  /** A comma joins what follows, or trails when nothing does. */
  lemma {:induction false} CommaParses(toks: seq<Token>, pos: nat, bindingPower: int, left: Tree)
    returns (tree: Tree, next: nat)
    requires ListStream(toks) && pos < |toks| && KeyForToken(toks[pos]) == S(",") && bindingPower <= 5
    ensures pos < next < |toks|
    ensures LeftLoop(LIST_GRAMMAR, toks, pos, bindingPower, left) ==
      LeftLoop(LIST_GRAMMAR, toks, next, bindingPower, tree)
    decreases |toks| - pos, 2
  {
    ListSelection(toks[pos], bindingPower);
    hide ParseTail, ParseExpression, LeftLoop, SelectLeftForms;
    if toks[pos + 1].kind.EOFToken? {
      EndFails(toks, pos + 1, 6);
      var span := FromTo(SpanOf(left), toks[pos].span);
      TailLiteral(LIST_GRAMMAR, toks, pos, COMMA, 1, [], [left], SpanOf(left));
      TailHoleFails(LIST_GRAMMAR, toks, pos + 1, COMMA, 2, [] + [toks[pos]], [left], span);
      TailLiteral(LIST_GRAMMAR, toks, pos, TRAILING_COMMA, 1, [], [left], SpanOf(left));
      TailDone(LIST_GRAMMAR, toks, pos + 1, TRAILING_COMMA, [] + [toks[pos]], [left], span);
      tree, next := Op(TRAILING_COMMA.id, [] + [toks[pos]], [left], span), pos + 1;
      LoopStepsSecond(LIST_GRAMMAR, toks, pos, bindingPower, left, tree, next);
    } else {
      ListExpressionParses(toks, pos + 1, 6);
      var child := ParseExpression(LIST_GRAMMAR, toks, pos + 1, 6);
      next := child.pos;
      assert pos + 1 < next by { ExpressionAdvances(toks, pos + 1, 6); }
      tree := InfixTail(LIST_GRAMMAR, toks, COMMA, left, pos, child.tree, next);
      LoopSteps(LIST_GRAMMAR, toks, pos, bindingPower, left, tree, next);
    }
  }

  lemma ListStreamOf(input: string)
    ensures Lex(LIST_TABLE, input, 0).Tokens? && ListStream(Lex(LIST_TABLE, input, 0).tokens)
  {
    hide Lex;
    ListTableValid();
    ListLexes(input, 0);
    LexStream(LIST_TABLE, input);
  }

  /** Every text parses as a list. */
  lemma EveryTextParses(input: string)
    ensures Valid(LIST_GRAMMAR) && Parse(LIST_GRAMMAR, input).Success?
  {
    ListGrammarValid();
    ListStreamOf(input);
    assert HasEmpty(LIST_RULES) by { assert LIST_RULES[0].empty; }
    hide Lex, ParseExpression, Valid, HasEmpty;
    var toks := Lex(LIST_TABLE, input, 0).tokens;
    if !toks[0].kind.EOFToken? { ListExpressionParses(toks, 0, 0); }
  }

  // ---------------------------------------------------------------------------
  // What a list keeps

  /** The atoms among some tokens, in order. */
  function AtomsOf(toks: seq<Token>): seq<Token> {
    if |toks| == 0 then [] else (if toks[0].kind.AtomToken? then [toks[0]] else []) + AtomsOf(toks[1..])
  }

  lemma {:induction false} AtomsConcat(a: seq<Token>, b: seq<Token>)
    ensures AtomsOf(a + b) == AtomsOf(a) + AtomsOf(b)
  {
    if |a| == 0 {
      assert a + b == b;
    } else {
      assert (a + b)[1..] == a[1..] + b;
      AtomsConcat(a[1..], b);
      assert (a + b)[0] == a[0];
    }
  }

  lemma AtomsSplit(toks: seq<Token>, i: nat, m: nat, j: nat)
    requires i <= m <= j <= |toks|
    ensures AtomsOf(toks[i..j]) == AtomsOf(toks[i..m]) + AtomsOf(toks[m..j])
  {
    assert toks[i..j] == toks[i..m] + toks[m..j];
    AtomsConcat(toks[i..m], toks[m..j]);
  }

  lemma AtomsOne(toks: seq<Token>, i: nat)
    requires i < |toks|
    ensures AtomsOf(toks[i..i + 1]) == if toks[i].kind.AtomToken? then [toks[i]] else []
  {
    assert toks[i..i + 1] == [toks[i]];
    assert [toks[i]][1..] == [];
  }

  predicate ListId(id: ID) { id in [",", ",missing", ",only", ",lead", ",trail"] }

  /** Only the list forms have the list forms' names. */
  ghost predicate NamesListForms(g: Pratt) {
    forall r :: r in g.rules && ListId(r.id) ==> r in LIST_FORMS
  }

  /** Nothing else is in the grammar. */
  ghost predicate OnlyListForms(g: Pratt) {
    forall r :: r in g.rules ==> r.empty || r in LIST_FORMS
  }

  /** Nothing but atoms and commas lies between. */
  predicate OnlyListTokens(toks: seq<Token>, i: nat, j: nat)
    requires i <= j <= |toks|
  {
    forall k :: i <= k < j ==> toks[k].kind.AtomToken? || KeyForToken(toks[k]) == S(",")
  }

  /** The tree flattens to exactly the atoms it derives, in order, and it derives nothing but atoms and commas. */
  predicate KeepsAtoms(toks: seq<Token>, i: nat, j: nat, tree: Tree) {
    i < j <= |toks| && FlattenList(tree) == Built(AtomsOf(toks[i..j])) && OnlyListTokens(toks, i, j)
  }

  /** One part of a form: a token. */
  lemma TokenStep(g: Pratt, toks: seq<Token>, i: nat, j: nat, tree: Tree, r: Rule, k: nat, ti: nat, ai: nat)
    requires tree.Op? && k < |r.pattern| && r.pattern[k] == Symbol(",")
    requires DerivesTail(g, toks, i, j, tree, r, k, ti, ai)
    ensures i < |toks| && AtomsOf(toks[i..i + 1]) == [] && OnlyListTokens(toks, i, i + 1)
    ensures DerivesTail(g, toks, i + 1, j, tree, r, k + 1, ti + 1, ai)
  {
    TokenParts(g, toks, i, j, tree, r, k, ti, ai);
    AtomsOne(toks, i);
    CommaIsNoAtom(g, toks, i, j, tree, r, k, ti, ai);
  }

  lemma CommaIsNoAtom(g: Pratt, toks: seq<Token>, i: nat, j: nat, tree: Tree, r: Rule, k: nat, ti: nat, ai: nat)
    requires tree.Op? && k < |r.pattern| && r.pattern[k] == Symbol(",")
    requires DerivesTail(g, toks, i, j, tree, r, k, ti, ai)
    ensures i < |toks| && KeyForToken(toks[i]) == S(",")
  {
  }

  lemma TailEnds(g: Pratt, toks: seq<Token>, i: nat, j: nat, tree: Tree, r: Rule, ti: nat, ai: nat)
    requires tree.Op? && DerivesTail(g, toks, i, j, tree, r, |r.pattern|, ti, ai)
    ensures i == j && ti == |tree.tokens| && ai == |tree.args|
  {
  }

  lemma {:induction false} FlattenKeepsAtoms(g: Pratt, toks: seq<Token>, i: nat, j: nat, bindingPower: int, tree: Tree)
    requires NamesListForms(g) && (OnlyListForms(g) || FlattenList(tree).Built?)
    requires Derives(g, toks, i, j, bindingPower, tree)
    ensures KeepsAtoms(toks, i, j, tree)
    decreases tree, 1
  {
    hide DerivesTail, AtomsOf, FlattenList;
    if tree.Atom? {
      AtomsOne(toks, i);
      assert FlattenList(tree) == Built([tree.token]) by { AtomFlattens(tree); }
    } else if r :| DerivesNull(g, toks, i, j, tree, r) {
      NullKeepsAtoms(g, toks, i, j, tree, r);
    } else {
      var r, m: nat :| DerivesLeft(g, toks, i, m, j, bindingPower, tree, r);
      LeftKeepsAtoms(g, toks, i, m, j, bindingPower, tree, r);
    }
  }

  lemma AtomFlattens(tree: Tree)
    requires tree.Atom?
    ensures FlattenList(tree) == Built([tree.token])
  {
  }

  lemma PairFlattens(tree: Tree, left: seq<Token>, right: seq<Token>)
    requires tree.Op? && (tree.id == "," || tree.id == ",missing") && |tree.args| == 2
    requires FlattenList(tree.args[0]) == Built(left) && FlattenList(tree.args[1]) == Built(right)
    ensures FlattenList(tree) == Built(left + right)
  {
  }

  lemma EdgeFlattens(tree: Tree)
    requires tree.Op? && (tree.id == ",lead" || tree.id == ",trail") && |tree.args| > 0
    ensures FlattenList(tree) == FlattenList(tree.args[0])
  {
  }

  /** Under either assumption the rule is a list form, and the arguments satisfy the assumption again. */
  lemma RuleIsListForm(g: Pratt, tree: Tree, r: Rule)
    requires NamesListForms(g) && (OnlyListForms(g) || FlattenList(tree).Built?)
    requires tree.Op? && r in g.rules && r.id == tree.id && !r.empty
    ensures r in LIST_FORMS
    ensures forall k ::
      0 <= k < |tree.args| && (k == 0 || (k == 1 && tree.id in [",", ",missing"])) && tree.id != ",only" ==>
      OnlyListForms(g) || FlattenList(tree.args[k]).Built?
  {
  }

  lemma {:induction false} NullKeepsAtoms(g: Pratt, toks: seq<Token>, i: nat, j: nat, tree: Tree, r: Rule)
    requires NamesListForms(g) && (OnlyListForms(g) || FlattenList(tree).Built?)
    requires DerivesNull(g, toks, i, j, tree, r)
    ensures KeepsAtoms(toks, i, j, tree)
    decreases tree, 0
  {
    RuleIsListForm(g, tree, r);
    NullParts(g, toks, i, j, tree, r);
    hide DerivesTail, AtomsOf, NamesListForms, OnlyListForms;
    AtomsOne(toks, i);
    if r == COMMA_ONLY {
      TailEnds(g, toks, i + 1, j, tree, r, 1, 0);
    } else {
      var m := HoleParts(g, toks, i + 1, j, tree, r, 1, 1, 0);
      TailEnds(g, toks, m, j, tree, r, 1, 1);
      FlattenKeepsAtoms(g, toks, i + 1, m, 6, tree.args[0]);
      EdgeFlattens(tree);
      AtomsSplit(toks, i, i + 1, j);
      assert [] + AtomsOf(toks[i + 1..j]) == AtomsOf(toks[i + 1..j]);
    }
  }

  lemma TrailingKeepsAtoms(g: Pratt, toks: seq<Token>, i: nat, m: nat, j: nat, tree: Tree)
    requires tree.Op? && tree.id == ",trail" && |tree.args| > 0 && KeepsAtoms(toks, i, m, tree.args[0])
    requires DerivesTail(g, toks, m, j, tree, TRAILING_COMMA, 1, 0, 1)
    ensures KeepsAtoms(toks, i, j, tree)
  {
    hide DerivesTail, AtomsOf, FlattenList;
    EdgeFlattens(tree);
    TokenStep(g, toks, m, j, tree, TRAILING_COMMA, 1, 0, 1);
    TailEnds(g, toks, m + 1, j, tree, TRAILING_COMMA, 1, 1);
    AtomsSplit(toks, i, m, j);
    assert AtomsOf(toks[i..m]) + [] == AtomsOf(toks[i..m]);
  }

  /** Two lists side by side, with or without a comma between them. */
  lemma JoinedKeepsAtoms(toks: seq<Token>, i: nat, m: nat, n: nat, j: nat, tree: Tree)
    requires tree.Op? && (tree.id == "," || tree.id == ",missing") && |tree.args| == 2
    requires KeepsAtoms(toks, i, m, tree.args[0]) && KeepsAtoms(toks, n, j, tree.args[1])
    requires m <= n && AtomsOf(toks[m..n]) == [] && OnlyListTokens(toks, m, n)
    ensures KeepsAtoms(toks, i, j, tree)
  {
    hide AtomsOf, FlattenList;
    PairFlattens(tree, AtomsOf(toks[i..m]), AtomsOf(toks[n..j]));
    AtomsSplit(toks, i, m, j);
    AtomsSplit(toks, m, n, j);
    assert [] + AtomsOf(toks[n..j]) == AtomsOf(toks[n..j]);
  }

  lemma LeftListForm(g: Pratt, tree: Tree, r: Rule)
    requires NamesListForms(g) && (OnlyListForms(g) || FlattenList(tree).Built?)
    requires tree.Op? && r in g.rules && r.id == tree.id && (IsLeft(r) || IsImplicit(r)) && |tree.args| > 0
    ensures r == COMMA || r == TRAILING_COMMA || r == MISSING_COMMA
    ensures OnlyListForms(g) || FlattenList(tree.args[0]).Built?
    ensures |tree.args| > 1 && r != TRAILING_COMMA ==> OnlyListForms(g) || FlattenList(tree.args[1]).Built?
  {
    RuleIsListForm(g, tree, r);
    hide FlattenList, NamesListForms, OnlyListForms;
  }

  lemma {:induction false} LeftKeepsAtoms(g: Pratt, toks: seq<Token>, i: nat, m: nat, j: nat, bindingPower: int,
                                          tree: Tree, r: Rule)
    requires NamesListForms(g) && (OnlyListForms(g) || FlattenList(tree).Built?)
    requires DerivesLeft(g, toks, i, m, j, bindingPower, tree, r)
    ensures KeepsAtoms(toks, i, j, tree)
    decreases tree, 0
  {
    LeftParts(g, toks, i, m, j, bindingPower, tree, r);
    LeftListForm(g, tree, r);
    hide DerivesTail, Derives, DerivesLeft, AtomsOf, FlattenList, NamesListForms, OnlyListForms, KeepsAtoms;
    FlattenKeepsAtoms(g, toks, i, m, bindingPower, tree.args[0]);
    if r == TRAILING_COMMA {
      TrailingKeepsAtoms(g, toks, i, m, j, tree);
    } else {
      var start := if r == COMMA then m + 1 else m;
      InRange(toks, i, m, tree.args[0]);
      SecondArgument(g, toks, m, j, tree, r);
      FlattenKeepsAtoms(g, toks, start, j, 6, tree.args[1]);
      JoinedKeepsAtoms(toks, i, m, start, j, tree);
    }
  }

  /** Where the second of two lists starts, and that only a comma may lie before it. */
  lemma SecondArgument(g: Pratt, toks: seq<Token>, m: nat, j: nat, tree: Tree, r: Rule)
    requires tree.Op? && r.id == tree.id && (r == COMMA || r == MISSING_COMMA) && m <= |toks|
    requires DerivesTail(g, toks, m, j, tree, r, 1, 0, 1)
    ensures var start := if r == COMMA then m + 1 else m;
      && |tree.args| == 2 && Derives(g, toks, start, j, 6, tree.args[1])
      && start <= |toks| && AtomsOf(toks[m..start]) == [] && OnlyListTokens(toks, m, start)
  {
    hide DerivesTail, Derives, AtomsOf;
    if r == COMMA {
      TokenStep(g, toks, m, j, tree, r, 1, 0, 1);
      var n := HoleParts(g, toks, m + 1, j, tree, r, 2, 1, 1);
      TailEnds(g, toks, n, j, tree, r, 1, 2);
    } else {
      var n := HoleParts(g, toks, m, j, tree, r, 1, 0, 1);
      TailEnds(g, toks, n, j, tree, r, 0, 2);
      assert toks[m..m] == [];
      NoAtoms();
    }
  }

  lemma InRange(toks: seq<Token>, i: nat, j: nat, tree: Tree)
    requires KeepsAtoms(toks, i, j, tree)
    ensures i < j <= |toks|
  {
  }

  lemma ListGrammarForms()
    ensures NamesListForms(LIST_GRAMMAR) && OnlyListForms(LIST_GRAMMAR)
  {
  }

  lemma ExpressionGrammarForms()
    ensures NamesListForms(GRAMMAR)
  {
    forall r | r in RULES && ListId(r.id) ensures r in LIST_FORMS {
      if r in CALLS {
      } else if r in PREFIXES {
      } else if r in OPERATORS {
      }
    }
  }

  /** A domain list is exactly the atoms of the text, in order, whatever the commas. */
  lemma ListIsItsAtoms(input: string)
    ensures Valid(LIST_GRAMMAR) && Parse(LIST_GRAMMAR, input).Success? && Lex(LIST_TABLE, input, 0).Tokens?
    ensures FlattenList(Parse(LIST_GRAMMAR, input).tree) == Built(AtomsOf(Lex(LIST_TABLE, input, 0).tokens))
  {
    hide Parse, Lex, Valid, Derives, FlattenList, AtomsOf, NamesListForms, OnlyListForms;
    EveryTextParses(input);
    ListStreamOf(input);
    ParseDerivesInput(LIST_GRAMMAR, input);
    ListGrammarForms();
    var toks, tree := Lex(LIST_TABLE, input, 0).tokens, Parse(LIST_GRAMMAR, input).tree;
    var n := |toks| - 1;
    AtomsSplit(toks, 0, n, |toks|);
    AtomsOne(toks, n);
    assert toks[n].kind.EOFToken?;
    assert toks[0..|toks|] == toks;
    assert AtomsOf(toks) == AtomsOf(toks[0..n]) + [] == AtomsOf(toks[0..n]);
    if |toks| == 1 {
      NothingFlattens();
      assert toks[0..n] == [];
      NoAtoms();
    } else {
      FlattenKeepsAtoms(LIST_GRAMMAR, toks, 0, n, 0, tree);
    }
  }

  lemma NothingFlattens()
    ensures FlattenList(EmptyTree) == Built([])
  {
  }

  lemma NoAtoms()
    ensures AtomsOf([]) == []
  {
  }

  /** The arguments of is(...) and sub(...) are exactly the atoms between the parentheses, in order. */
  lemma ArgumentsAreAtoms(toks: seq<Token>, i: nat, j: nat, bindingPower: int, list: Tree)
    requires Derives(GRAMMAR, toks, i, j, bindingPower, list) && FlattenList(list).Built?
    ensures i < j <= |toks| && FlattenList(list).value == AtomsOf(toks[i..j]) && OnlyListTokens(toks, i, j)
  {
    hide Derives, FlattenList, AtomsOf, NamesListForms;
    ExpressionGrammarForms();
    FlattenKeepsAtoms(GRAMMAR, toks, i, j, bindingPower, list);
  }

  // ---------------------------------------------------------------------------
  // Reading the domains

  datatype Listed = Listed(domains: seq<Domain>) | BadEntry(index: nat) | NotAList

  method ParseList(c: Codec, input: string) returns (r: Listed)
    ensures Lex(LIST_TABLE, input, 0).Tokens?
    ensures var atoms := AtomsOf(Lex(LIST_TABLE, input, 0).tokens);
      match r {
        case Listed(domains) =>
          |domains| == |atoms| && forall k :: 0 <= k < |atoms| ==> c.newDomain(atoms[k].text) == GoodDomain(domains[k])
        case BadEntry(index) =>
          && index < |atoms| && !c.newDomain(atoms[index].text).GoodDomain?
          && forall k :: 0 <= k < index ==> c.newDomain(atoms[k].text).GoodDomain?
        case NotAList => false
      }
  {
    hide Lex, Valid, Parse, FlattenList, AtomsOf;
    ListIsItsAtoms(input);
    var parsed := Parse(LIST_GRAMMAR, input);
    if parsed.Failure? { return NotAList; }
    var list := FlattenList(parsed.tree);
    if list.Faulty? { return NotAList; }
    var tokens := list.value;
    var domains: seq<Domain> := [];
    for i := 0 to |tokens|
      invariant |domains| == i && forall k :: 0 <= k < i ==> c.newDomain(tokens[k].text) == GoodDomain(domains[k])
    {
      match c.newDomain(tokens[i].text) {
        case GoodDomain(d) => domains := domains + [d];
        case TooFewLabels(_) => return BadEntry(i);
        case BadDomain => return BadEntry(i);
      }
    }
    r := Listed(domains);
  }
}
