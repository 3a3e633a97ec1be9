/** Where the arguments of a domain expression come from: every call of the text is read from its own atoms. */
module DomainCalls {
  import opened DomainExpr
  import opened Tokenizer
  import opened Grammar
  import opened PrattSpec
  import opened Reading
  import opened DomainText
  import opened DomainTokens
  import opened DomainRoundTrip
  import opened DomainList
  import opened DomainKeywords

  // ---------------------------------------------------------------------------
  // The shape of derived trees

  /** The rule of each operator ID. */
  lemma RuleOf(r: Rule)
    requires r in RULES
    ensures r.id == "is()" ==> r == IS_EMPTY
    ensures r.id == "is(...)" ==> r == IS_CALL
    ensures r.id == "sub()" ==> r == SUB_EMPTY
    ensures r.id == "sub(...)" ==> r == SUB_CALL
    ensures r.id == "!" ==> r == NOT
    ensures r.id == "(...)" ==> r == GROUP
    ensures r.id == "&&" ==> r == AND
    ensures r.id == "||" ==> r == OR
    ensures ListId(r.id) ==> r in LIST_FORMS
    ensures ListId(r.id) || r.id in ["is()", "is(...)", "sub()", "sub(...)", "!", "(...)", "&&", "||"]
  {
    if r in CALLS {
    } else if r in PREFIXES {
    } else if r in OPERATORS {
    } else {
      assert r in LIST_FORMS;
    }
  }

  /** A tree whose rule starts with a token. */
  lemma NullTree(toks: seq<Token>, i: nat, j: nat, bindingPower: int, tree: Tree, rule: Rule)
    requires Derives(GRAMMAR, toks, i, j, bindingPower, tree) && tree.Op? && rule in RULES && IsNull(rule)
    requires forall r :: r in RULES && r.id == tree.id ==> r == rule
    ensures i < |toks| && KeyForToken(toks[i]) == KeyForPart(rule.pattern[0])
    ensures DerivesTail(GRAMMAR, toks, i + 1, j, tree, rule, 1, 1, 0)
  {
    hide DerivesTail;
    if r, m: nat :| DerivesLeft(GRAMMAR, toks, i, m, j, bindingPower, tree, r) {
      assert false;
    }
  }

  /** A tree whose rule extends an expression. */
  lemma LeftTree(toks: seq<Token>, i: nat, j: nat, bindingPower: int, tree: Tree, rule: Rule) returns (m: nat)
    requires Derives(GRAMMAR, toks, i, j, bindingPower, tree) && tree.Op? && rule in RULES && IsLeft(rule)
    requires forall r :: r in RULES && r.id == tree.id ==> r == rule
    ensures |tree.args| > 0 && Derives(GRAMMAR, toks, i, m, bindingPower, tree.args[0])
    ensures DerivesTail(GRAMMAR, toks, m, j, tree, rule, 1, 0, 1)
  {
    hide DerivesTail;
    if r :| DerivesNull(GRAMMAR, toks, i, j, tree, r) {
      assert false;
    }
    var r;
    r, m :| DerivesLeft(GRAMMAR, toks, i, m, j, bindingPower, tree, r);
    assert r == rule;
  }

  lemma SymbolStep(toks: seq<Token>, i: nat, j: nat, tree: Tree, rule: Rule, k: nat, ti: nat, ai: nat)
    requires tree.Op? && k < |rule.pattern| && rule.pattern[k].Symbol?
    requires DerivesTail(GRAMMAR, toks, i, j, tree, rule, k, ti, ai)
    ensures i < |toks| && KeyForToken(toks[i]) == S(rule.pattern[k].text) && AtomsOf(toks[i..i + 1]) == []
    ensures DerivesTail(GRAMMAR, toks, i + 1, j, tree, rule, k + 1, ti + 1, ai)
  {
    TokenParts(GRAMMAR, toks, i, j, tree, rule, k, ti, ai);
    AtomsOne(toks, i);
  }

  lemma RangeFits(toks: seq<Token>, i: nat, j: nat, bindingPower: int, tree: Tree)
    requires Derives(GRAMMAR, toks, i, j, bindingPower, tree)
    ensures i < j <= |toks|
  {
    DerivesConserves(GRAMMAR, toks, i, j, bindingPower, tree);
  }

  lemma IdOf(id: ID, rule: Rule)
    requires rule in RULES && rule.id == id && !ListId(id)
    ensures forall r :: r in RULES && r.id == id ==> r == rule
  {
    forall r | r in RULES && r.id == id ensures r == rule {
      RuleOf(r);
      RuleOf(rule);
    }
  }

  lemma AllRules()
    ensures IS_EMPTY in RULES && IS_CALL in RULES && SUB_EMPTY in RULES && SUB_CALL in RULES
    ensures NOT in RULES && GROUP in RULES && AND in RULES && OR in RULES
  {
    assert RULES[0] == IS_EMPTY && RULES[1] == IS_CALL && RULES[2] == SUB_EMPTY && RULES[3] == SUB_CALL;
    assert RULES[4] == NOT && RULES[5] == GROUP && RULES[6] == AND && RULES[7] == OR;
  }

  /** "(" operand ")" from part k of a rule on. */
  lemma EnclosedParts(toks: seq<Token>, i: nat, j: nat, tree: Tree, rule: Rule, k: nat)
    requires tree.Op? && |rule.pattern| == k + 3 && DerivesTail(GRAMMAR, toks, i, j, tree, rule, k, k, 0)
    requires rule.pattern[k] == Symbol("(") && rule.pattern[k + 1] == Hole(0) && rule.pattern[k + 2] == Symbol(")")
    ensures |tree.args| == 1 && i + 2 < j <= |toks| && Derives(GRAMMAR, toks, i + 1, j - 1, 0, tree.args[0])
    ensures KeyForToken(toks[i]) == S("(") && KeyForToken(toks[j - 1]) == S(")")
  {
    hide DerivesTail, Derives, AtomsOf;
    SymbolStep(toks, i, j, tree, rule, k, k, 0);
    var m := HoleParts(GRAMMAR, toks, i + 1, j, tree, rule, k + 1, k + 1, 0);
    SymbolStep(toks, m, j, tree, rule, k + 2, k + 1, 1);
    TailEnds(GRAMMAR, toks, m + 1, j, tree, rule, k + 2, 1);
  }

  /** Symbols at either end contribute no atom. */
  lemma EnclosedAtoms(toks: seq<Token>, i: nat, j: nat)
    requires i + 2 <= j <= |toks| && toks[i].kind.SymbolToken? && toks[j - 1].kind.SymbolToken?
    ensures AtomsOf(toks[i..j]) == AtomsOf(toks[i + 1..j - 1])
  {
    hide AtomsOf;
    SymbolFirst(toks, i, j);
    AtomsSplit(toks, i + 1, j - 1, j);
    AtomsOne(toks, j - 1);
    assert AtomsOf(toks[i + 1..j - 1]) + [] == AtomsOf(toks[i + 1..j - 1]);
  }

  lemma SymbolFirst(toks: seq<Token>, i: nat, j: nat)
    requires i < j <= |toks| && toks[i].kind.SymbolToken?
    ensures AtomsOf(toks[i..j]) == AtomsOf(toks[i + 1..j])
  {
    hide AtomsOf;
    AtomsSplit(toks, i, i + 1, j);
    AtomsOne(toks, i);
    assert [] + AtomsOf(toks[i + 1..j]) == AtomsOf(toks[i + 1..j]);
  }

  lemma AtomFirst(toks: seq<Token>, i: nat, j: nat)
    requires i < j <= |toks| && toks[i].kind.AtomToken?
    ensures AtomsOf(toks[i..j]) == [toks[i]] + AtomsOf(toks[i + 1..j])
  {
    hide AtomsOf;
    AtomsSplit(toks, i, i + 1, j);
    AtomsOne(toks, i);
  }

  /** name "(" list ")". */
  lemma CallShape(toks: seq<Token>, i: nat, j: nat, bindingPower: int, tree: Tree, name: string)
    requires Derives(GRAMMAR, toks, i, j, bindingPower, tree) && tree.Op? && IsKeyword(name)
      && tree.id == FullCall(name).id
    ensures |tree.args| == 1 && i + 3 < j <= |toks| && CallAround(toks, i, j, name)
    ensures Derives(GRAMMAR, toks, i + 2, j - 1, 0, tree.args[0])
    ensures AtomsOf(toks[i..j]) == [toks[i]] + AtomsOf(toks[i + 2..j - 1])
  {
    var rule := FullCall(name);
    AllRules();
    IdOf(tree.id, rule);
    NullTree(toks, i, j, bindingPower, tree, rule);
    hide DerivesTail, Derives, AtomsOf;
    EnclosedParts(toks, i + 1, j, tree, rule, 1);
    AtomFirst(toks, i, j);
    EnclosedAtoms(toks, i + 1, j);
  }

  /** The range is name "(" ... ")". */
  predicate CallAround(toks: seq<Token>, i: nat, j: nat, name: string)
    requires i + 3 < j <= |toks|
  {
    KeyForToken(toks[i]) == A(name) && KeyForToken(toks[i + 1]) == S("(") && KeyForToken(toks[j - 1]) == S(")")
  }

  /** name "(" ")". */
  lemma EmptyShape(toks: seq<Token>, i: nat, j: nat, bindingPower: int, tree: Tree, name: string)
    requires Derives(GRAMMAR, toks, i, j, bindingPower, tree) && tree.Op? && IsKeyword(name)
      && tree.id == EmptyCall(name).id
    ensures j == i + 3 <= |toks| && KeyForToken(toks[i]) == A(name) && KeyForToken(toks[i + 1]) == S("(")
    ensures AtomsOf(toks[i..j]) == [toks[i]]
  {
    var rule := EmptyCall(name);
    AllRules();
    IdOf(tree.id, rule);
    NullTree(toks, i, j, bindingPower, tree, rule);
    hide DerivesTail, Derives, AtomsOf;
    SymbolStep(toks, i + 1, j, tree, rule, 1, 1, 0);
    SymbolStep(toks, i + 2, j, tree, rule, 2, 2, 0);
    TailEnds(GRAMMAR, toks, i + 3, j, tree, rule, 3, 0);
    AtomsSplit(toks, i, i + 1, j);
    AtomsSplit(toks, i + 1, i + 2, j);
    AtomsOne(toks, i);
  }

  lemma NotShape(toks: seq<Token>, i: nat, j: nat, bindingPower: int, tree: Tree)
    requires Derives(GRAMMAR, toks, i, j, bindingPower, tree) && tree.Op? && tree.id == "!"
    ensures |tree.args| == 1 && i + 1 < j <= |toks| && Derives(GRAMMAR, toks, i + 1, j, 30, tree.args[0])
    ensures KeyForToken(toks[i]) == S("!") && AtomsOf(toks[i..j]) == AtomsOf(toks[i + 1..j])
  {
    AllRules();
    IdOf("!", NOT);
    NullTree(toks, i, j, bindingPower, tree, NOT);
    hide DerivesTail, Derives, AtomsOf;
    var m := HoleParts(GRAMMAR, toks, i + 1, j, tree, NOT, 1, 1, 0);
    TailEnds(GRAMMAR, toks, m, j, tree, NOT, 1, 1);
    RangeFits(toks, i + 1, j, 30, tree.args[0]);
    AtomsSplit(toks, i, i + 1, j);
    AtomsOne(toks, i);
    assert [] + AtomsOf(toks[i + 1..j]) == AtomsOf(toks[i + 1..j]);
  }

  lemma GroupShape(toks: seq<Token>, i: nat, j: nat, bindingPower: int, tree: Tree)
    requires Derives(GRAMMAR, toks, i, j, bindingPower, tree) && tree.Op? && tree.id == "(...)"
    ensures |tree.args| == 1 && i + 2 < j <= |toks| && Derives(GRAMMAR, toks, i + 1, j - 1, 0, tree.args[0])
    ensures KeyForToken(toks[i]) == S("(") && AtomsOf(toks[i..j]) == AtomsOf(toks[i + 1..j - 1])
  {
    AllRules();
    IdOf("(...)", GROUP);
    NullTree(toks, i, j, bindingPower, tree, GROUP);
    hide DerivesTail, Derives, AtomsOf;
    GroupTailParts(toks, i, j, tree);
    EnclosedAtoms(toks, i, j);
  }

  lemma GroupTailParts(toks: seq<Token>, i: nat, j: nat, tree: Tree)
    requires tree.Op? && DerivesTail(GRAMMAR, toks, i + 1, j, tree, GROUP, 1, 1, 0)
    ensures |tree.args| == 1 && i + 2 < j <= |toks| && Derives(GRAMMAR, toks, i + 1, j - 1, 0, tree.args[0])
    ensures KeyForToken(toks[j - 1]) == S(")")
  {
    hide DerivesTail, Derives, AtomsOf;
    var m := HoleParts(GRAMMAR, toks, i + 1, j, tree, GROUP, 1, 1, 0);
    SymbolStep(toks, m, j, tree, GROUP, 2, 1, 1);
    TailEnds(GRAMMAR, toks, m + 1, j, tree, GROUP, 2, 1);
  }

  /** left op right. */
  lemma InfixShape(toks: seq<Token>, i: nat, j: nat, bindingPower: int, tree: Tree, op: Operator) returns (m: nat)
    requires Derives(GRAMMAR, toks, i, j, bindingPower, tree) && tree.Op? && tree.id == OperatorText(op)
    ensures |tree.args| == 2 && i < m && m + 1 < j <= |toks| && KeyForToken(toks[m]) == S(OperatorText(op))
    ensures Derives(GRAMMAR, toks, i, m, bindingPower, tree.args[0])
    ensures Derives(GRAMMAR, toks, m + 1, j, BindingPower(op) + 1, tree.args[1])
    ensures AtomsOf(toks[i..j]) == AtomsOf(toks[i..m]) + AtomsOf(toks[m + 1..j])
  {
    var rule := OperatorRule(op);
    AllRules();
    IdOf(tree.id, rule);
    m := LeftTree(toks, i, j, bindingPower, tree, rule);
    OperatorRuleParts(op);
    hide DerivesTail, Derives, AtomsOf, OperatorRule, OperatorText, BindingPower;
    RangeFits(toks, i, m, bindingPower, tree.args[0]);
    InfixTailParts(toks, m, j, tree, op);
    AtomsSplit(toks, i, m, j);
    SymbolFirst(toks, m, j);
  }

  lemma InfixTailParts(toks: seq<Token>, m: nat, j: nat, tree: Tree, op: Operator)
    requires tree.Op? && DerivesTail(GRAMMAR, toks, m, j, tree, OperatorRule(op), 1, 0, 1)
    ensures |tree.args| == 2 && m + 1 < j <= |toks| && KeyForToken(toks[m]) == S(OperatorText(op))
    ensures Derives(GRAMMAR, toks, m + 1, j, BindingPower(op) + 1, tree.args[1])
  {
    var rule := OperatorRule(op);
    OperatorRuleParts(op);
    hide DerivesTail, Derives, AtomsOf, OperatorRule, OperatorText, BindingPower;
    SymbolStep(toks, m, j, tree, rule, 1, 0, 1);
    var n := HoleParts(GRAMMAR, toks, m + 1, j, tree, rule, 2, 1, 1);
    TailEnds(GRAMMAR, toks, n, j, tree, rule, 1, 2);
    RangeFits(toks, m + 1, j, rule.pattern[2].bindingPower, tree.args[1]);
  }

  // ---------------------------------------------------------------------------
  // Calls

  lemma RuleIdOf(toks: seq<Token>, i: nat, j: nat, bindingPower: int, tree: Tree)
    requires Derives(GRAMMAR, toks, i, j, bindingPower, tree) && tree.Op?
    ensures ListId(tree.id) || tree.id in ["is()", "is(...)", "sub()", "sub(...)", "!", "(...)", "&&", "||"]
  {
    hide DerivesTail;
    if r :| DerivesNull(GRAMMAR, toks, i, j, tree, r) {
      RuleOf(r);
    } else {
      var r, m: nat :| DerivesLeft(GRAMMAR, toks, i, m, j, bindingPower, tree, r);
      RuleOf(r);
    }
  }

  /** Every form but the list forms has a symbol of its own. */
  lemma OtherSymbol(toks: seq<Token>, i: nat, j: nat, bindingPower: int, tree: Tree)
    requires Derives(GRAMMAR, toks, i, j, bindingPower, tree) && tree.Op? && !ListId(tree.id)
    ensures i < j <= |toks| && !OnlyListTokens(toks, i, j)
  {
    RuleIdOf(toks, i, j, bindingPower, tree);
    hide Derives, AtomsOf;
    var m := i;
    if tree.id == "is()" || tree.id == "sub()" {
      EmptyShape(toks, i, j, bindingPower, tree, if tree.id == "is()" then "is" else "sub");
      m := i + 1;
    } else if tree.id == "is(...)" || tree.id == "sub(...)" {
      CallShape(toks, i, j, bindingPower, tree, if tree.id == "is(...)" then "is" else "sub");
      m := i + 1;
    } else if tree.id == "!" {
      NotShape(toks, i, j, bindingPower, tree);
    } else if tree.id == "(...)" {
      GroupShape(toks, i, j, bindingPower, tree);
    } else {
      m := InfixShape(toks, i, j, bindingPower, tree, if tree.id == "&&" then AndOp else OrOp);
    }
    assert !toks[m].kind.AtomToken? && KeyForToken(toks[m]) != S(",");
  }

  /** A derived list flattens exactly when nothing but atoms and commas lies in its range. */
  lemma {:induction false} FlattensIff(toks: seq<Token>, i: nat, j: nat, bindingPower: int, tree: Tree)
    requires Derives(GRAMMAR, toks, i, j, bindingPower, tree)
    ensures i < j <= |toks| && (FlattenList(tree).Built? <==> OnlyListTokens(toks, i, j))
    decreases tree, 1
  {
    RangeFits(toks, i, j, bindingPower, tree);
    if FlattenList(tree).Built? {
      ArgumentsAreAtoms(toks, i, j, bindingPower, tree);
    } else if OnlyListTokens(toks, i, j) {
      if tree.Op? && !ListId(tree.id) { OtherSymbol(toks, i, j, bindingPower, tree); }
      if r :| DerivesNull(GRAMMAR, toks, i, j, tree, r) {
        RuleOf(r);
        NullListFlattens(toks, i, j, tree, r);
      } else {
        var r, m: nat :| DerivesLeft(GRAMMAR, toks, i, m, j, bindingPower, tree, r);
        RuleOf(r);
        LeftListFlattens(toks, i, m, j, bindingPower, tree, r);
      }
    }
  }

  lemma NullListFlattens(toks: seq<Token>, i: nat, j: nat, tree: Tree, r: Rule)
    requires DerivesNull(GRAMMAR, toks, i, j, tree, r) && r in LIST_FORMS
    requires i < j <= |toks| && OnlyListTokens(toks, i, j)
    ensures FlattenList(tree).Built?
    decreases tree, 0
  {
    NullParts(GRAMMAR, toks, i, j, tree, r);
    if r == LEADING_COMMA {
      hide DerivesTail, Derives, FlattenList;
      var m := HoleParts(GRAMMAR, toks, i + 1, j, tree, r, 1, 1, 0);
      TailEnds(GRAMMAR, toks, m, j, tree, r, 1, 1);
      FlattensIff(toks, i + 1, m, 6, tree.args[0]);
      EdgeFlattens(tree);
    }
  }

  lemma LeftListFlattens(toks: seq<Token>, i: nat, m: nat, j: nat, bindingPower: int, tree: Tree, r: Rule)
    requires DerivesLeft(GRAMMAR, toks, i, m, j, bindingPower, tree, r) && r in LIST_FORMS
    requires i < j <= |toks| && OnlyListTokens(toks, i, j)
    ensures FlattenList(tree).Built?
    decreases tree, 0
  {
    LeftParts(GRAMMAR, toks, i, m, j, bindingPower, tree, r);
    hide DerivesTail, Derives, FlattenList, DerivesLeft, AtomsOf;
    RangeFits(toks, i, m, bindingPower, tree.args[0]);
    if r == TRAILING_COMMA {
      TokenStep(GRAMMAR, toks, m, j, tree, r, 1, 0, 1);
      TailEnds(GRAMMAR, toks, m + 1, j, tree, r, 1, 1);
      FlattensIff(toks, i, m, bindingPower, tree.args[0]);
      EdgeFlattens(tree);
    } else {
      var start := if r == COMMA then m + 1 else m;
      SecondArgument(GRAMMAR, toks, m, j, tree, r);
      RangeFits(toks, start, j, 6, tree.args[1]);
      FlattensIff(toks, i, m, bindingPower, tree.args[0]);
      FlattensIff(toks, start, j, 6, tree.args[1]);
      PairFlattens(tree, FlattenList(tree.args[0]).value, FlattenList(tree.args[1]).value);
    }
  }

  lemma {:induction false} FlattenFault(tree: Tree)
    ensures FlattenList(tree).Faulty? ==> FlattenList(tree).fault == UnexpectedListToken
  {
    if tree.Op? {
      if (tree.id == "," || tree.id == ",missing") && |tree.args| > 1 {
        FlattenFault(tree.args[0]);
        FlattenFault(tree.args[1]);
      } else if (tree.id == ",lead" || tree.id == ",trail") && |tree.args| > 0 {
        FlattenFault(tree.args[0]);
      }
    }
  }

  /** The atoms between the parentheses of the call at toks[i..j]. */
  function Arguments(toks: seq<Token>, i: nat, j: nat): seq<Token>
    requires i + 3 < j <= |toks|
  {
    AtomsOf(toks[i + 2..j - 1])
  }

  /** r is what the arguments read to, or the blame for the first that does not read, or for what is no list. */
  ghost predicate CallDecided(c: Codec, name: string, toks: seq<Token>, i: nat, j: nat, r: Built<Expr>)
    requires i + 3 < j <= |toks|
  {
    if !OnlyListTokens(toks, i + 2, j - 1) then r.Faulty? && r.fault == UnexpectedListToken
    else if name == "is" then IsRead(c, Arguments(toks, i, j), r)
    else SubRead(c, Arguments(toks, i, j), r)
  }

  lemma CallBuilds(c: Codec, tree: Tree, name: string)
    requires tree.Op? && IsKeyword(name) && tree.id == FullCall(name).id && |tree.args| == 1
    ensures Build(c, tree) == if name == "is" then IsCall(c, tree.args[0]) else SubCall(c, tree.args[0])
  {
  }

  lemma CallReadsArguments(c: Codec, list: Tree)
    ensures var f := FlattenList(list);
      if f.Built? then IsRead(c, f.value, IsCall(c, list)) && SubRead(c, f.value, SubCall(c, list))
      else IsCall(c, list) == Faulty(f.span, f.fault) && SubCall(c, list) == Faulty(f.span, f.fault)
  {
    var f := FlattenList(list);
    if f.Built? {
      KeepDomainsReads(c, f.value);
      KeepSuffixesReads(c, f.value);
    }
    hide DomainsRead, SuffixesRead, KeepDomains, KeepSuffixes, FlattenList;
  }

  /** Every call is decided by its own atoms. */
  lemma CallDecides(c: Codec, toks: seq<Token>, i: nat, j: nat, bindingPower: int, tree: Tree, name: string)
    requires Derives(GRAMMAR, toks, i, j, bindingPower, tree) && tree.Op? && IsKeyword(name)
      && tree.id == FullCall(name).id
    ensures i + 3 < j <= |toks| && CallAround(toks, i, j, name) && CallDecided(c, name, toks, i, j, Build(c, tree))
  {
    hide Derives, FlattenList, Build, IsRead, SubRead, AtomsOf, FullCall, IsCall, SubCall, IsKeyword;
    CallShape(toks, i, j, bindingPower, tree, name);
    CallBuilds(c, tree, name);
    var list := tree.args[0];
    CallReadsArguments(c, list);
    FlattensIff(toks, i + 2, j - 1, 0, list);
    FlattenFault(list);
    if FlattenList(list).Built? { ArgumentsAreAtoms(toks, i + 2, j - 1, 0, list); }
    assert name == "is" || name == "sub" by { KeywordIs(name); }
  }

  lemma KeywordIs(name: string)
    requires IsKeyword(name)
    ensures name == "is" || name == "sub"
  {
  }

  // ---------------------------------------------------------------------------
  // Whole expressions

  /** The atoms, in order, are the ones e was written with: constants, keywords, and the arguments that read to e's. */
  ghost predicate Spells(c: Codec, atoms: seq<Token>, e: Expr)
    decreases e
  {
    match e
    case Literal(value) =>
      |atoms| == 1 && atoms[0].text in if value then ["1", "t", "T", "TRUE", "true", "True"]
                                       else ["0", "f", "F", "FALSE", "false", "False"]
    case Is(ds) => |atoms| > 0 && atoms[0].text == "is" && DomainsRead(c, atoms[1..], Built(ds))
    case Sub(ss) => |atoms| > 0 && atoms[0].text == "sub" && SuffixesRead(c, atoms[1..], Built(ss))
    case Not(x) => Spells(c, atoms, x)
    case Binary(_, l, r) => exists m :: 0 <= m <= |atoms| && Spells(c, atoms[..m], l) && Spells(c, atoms[m..], r)
  }

  lemma SpellsPair(c: Codec, a: seq<Token>, b: seq<Token>, op: Operator, l: Expr, r: Expr)
    requires Spells(c, a, l) && Spells(c, b, r)
    ensures Spells(c, a + b, Binary(op, l, r))
  {
    var all, m := a + b, |a|;
    assert all[..m] == a && all[m..] == b;
  }

  lemma InfixBuilds(c: Codec, tree: Tree, op: Operator)
    requires tree.Op? && tree.id == OperatorText(op) && |tree.args| == 2
    ensures var l, r := Build(c, tree.args[0]), Build(c, tree.args[1]);
      Build(c, tree) == if l.Faulty? then l else if r.Faulty? then r else Built(Binary(op, l.value, r.value))
  {
  }

  lemma UnaryBuilds(c: Codec, tree: Tree)
    requires tree.Op? && |tree.args| == 1 && (tree.id == "!" || tree.id == "(...)")
    ensures var b := Build(c, tree.args[0]);
      Build(c, tree) == if tree.id == "!" && b.Built? then Built(Not(b.value)) else b
  {
  }

  lemma EmptyBuilds(c: Codec, tree: Tree)
    requires tree.Op? && (tree.id == "is()" || tree.id == "sub()")
    ensures Build(c, tree) == Built(if tree.id == "is()" then Is([]) else Sub([]))
  {
  }

  lemma ListFaults(c: Codec, tree: Tree)
    requires tree.Op? && ListId(tree.id)
    ensures Build(c, tree).Faulty? && Build(c, tree).fault == UnexpectedBooleanToken
  {
  }

  lemma EmptySpells(c: Codec, token: Token, name: string)
    requires IsKeyword(name) && KeyForToken(token) == A(name)
    ensures Spells(c, [token], if name == "is" then Is([]) else Sub([]))
  {
    assert [token][1..] == [];
    if name == "sub" { assert Places(c, [], [], []); }
  }

  lemma CallSpells(c: Codec, first: Token, atoms: seq<Token>, name: string, e: Expr)
    requires IsKeyword(name) && KeyForToken(first) == A(name)
    requires if name == "is" then IsRead(c, atoms, Built(e)) else SubRead(c, atoms, Built(e))
    ensures Spells(c, [first] + atoms, e)
  {
    assert ([first] + atoms)[1..] == atoms;
    hide DomainsRead, SuffixesRead;
  }

  lemma AtomSpells(c: Codec, token: Token)
    requires Build(c, Atom(token)).Built?
    ensures Spells(c, [token], Build(c, Atom(token)).value)
  {
  }

  lemma KeywordNames()
    ensures IsKeyword("is") && FullCall("is").id == "is(...)" && EmptyCall("is").id == "is()"
    ensures IsKeyword("sub") && FullCall("sub").id == "sub(...)" && EmptyCall("sub").id == "sub()"
  {
  }

  /** Nothing that was written is dropped: a built expression spells exactly the atoms of its range. */
  lemma {:induction false} TreeSpells(c: Codec, toks: seq<Token>, i: nat, j: nat, bindingPower: int, tree: Tree)
    requires Derives(GRAMMAR, toks, i, j, bindingPower, tree) && Build(c, tree).Built?
    ensures i < j <= |toks| && Spells(c, AtomsOf(toks[i..j]), Build(c, tree).value)
    decreases tree, 1
  {
    RangeFits(toks, i, j, bindingPower, tree);
    if tree.Atom? {
      AtomsOne(toks, i);
      AtomSpells(c, tree.token);
    } else {
      RuleIdOf(toks, i, j, bindingPower, tree);
      hide Derives, Build, Spells, AtomsOf, FullCall, EmptyCall, IsKeyword;
      KeywordNames();
      if ListId(tree.id) {
        ListFaults(c, tree);
      } else if tree.id == "is()" || tree.id == "sub()" {
        EmptyCallSpells(c, toks, i, j, bindingPower, tree, if tree.id == "is()" then "is" else "sub");
      } else if tree.id == "is(...)" || tree.id == "sub(...)" {
        CallSpellsAtoms(c, toks, i, j, bindingPower, tree, if tree.id == "is(...)" then "is" else "sub");
      } else if tree.id == "!" || tree.id == "(...)" {
        UnarySpells(c, toks, i, j, bindingPower, tree);
      } else {
        InfixSpells(c, toks, i, j, bindingPower, tree, if tree.id == "&&" then AndOp else OrOp);
      }
    }
  }

  lemma UnarySpells(c: Codec, toks: seq<Token>, i: nat, j: nat, bindingPower: int, tree: Tree)
    requires Derives(GRAMMAR, toks, i, j, bindingPower, tree) && tree.Op? && (tree.id == "!" || tree.id == "(...)")
    requires Build(c, tree).Built?
    ensures i < j <= |toks| && Spells(c, AtomsOf(toks[i..j]), Build(c, tree).value)
    decreases tree, 0
  {
    hide Derives, Build, Spells, AtomsOf;
    if tree.id == "!" {
      NotShape(toks, i, j, bindingPower, tree);
      UnaryBuilds(c, tree);
      TreeSpells(c, toks, i + 1, j, 30, tree.args[0]);
      NotSpells(c, AtomsOf(toks[i..j]), Build(c, tree.args[0]).value);
    } else {
      GroupShape(toks, i, j, bindingPower, tree);
      UnaryBuilds(c, tree);
      TreeSpells(c, toks, i + 1, j - 1, 0, tree.args[0]);
    }
  }

  lemma InfixSpells(c: Codec, toks: seq<Token>, i: nat, j: nat, bindingPower: int, tree: Tree, op: Operator)
    requires Derives(GRAMMAR, toks, i, j, bindingPower, tree) && tree.Op? && tree.id == OperatorText(op)
    requires Build(c, tree).Built?
    ensures i < j <= |toks| && Spells(c, AtomsOf(toks[i..j]), Build(c, tree).value)
    decreases tree, 0
  {
    hide Derives, Build, Spells, AtomsOf, OperatorText, BindingPower;
    var m := InfixShape(toks, i, j, bindingPower, tree, op);
    InfixBuilds(c, tree, op);
    TreeSpells(c, toks, i, m, bindingPower, tree.args[0]);
    TreeSpells(c, toks, m + 1, j, BindingPower(op) + 1, tree.args[1]);
    SpellsPair(c, AtomsOf(toks[i..m]), AtomsOf(toks[m + 1..j]), op,
               Build(c, tree.args[0]).value, Build(c, tree.args[1]).value);
  }

  lemma EmptyCallSpells(c: Codec, toks: seq<Token>, i: nat, j: nat, bindingPower: int, tree: Tree, name: string)
    requires Derives(GRAMMAR, toks, i, j, bindingPower, tree) && tree.Op? && IsKeyword(name)
      && tree.id == EmptyCall(name).id
    ensures i < j <= |toks| && Build(c, tree).Built? && Spells(c, AtomsOf(toks[i..j]), Build(c, tree).value)
  {
    hide Derives, Build, Spells, AtomsOf;
    EmptyShape(toks, i, j, bindingPower, tree, name);
    EmptyBuilds(c, tree);
    EmptySpells(c, toks[i], name);
  }

  lemma NotSpells(c: Codec, atoms: seq<Token>, e: Expr)
    requires Spells(c, atoms, e)
    ensures Spells(c, atoms, Not(e))
  {
  }

  lemma CallSpellsAtoms(c: Codec, toks: seq<Token>, i: nat, j: nat, bindingPower: int, tree: Tree, name: string)
    requires Derives(GRAMMAR, toks, i, j, bindingPower, tree) && tree.Op? && IsKeyword(name)
      && tree.id == FullCall(name).id
    requires Build(c, tree).Built?
    ensures i < j <= |toks| && Spells(c, AtomsOf(toks[i..j]), Build(c, tree).value)
  {
    hide Derives, Build, Spells, AtomsOf, IsRead, SubRead, FullCall;
    CallShape(toks, i, j, bindingPower, tree, name);
    CallDecides(c, toks, i, j, bindingPower, tree, name);
    CallSpells(c, toks[i], Arguments(toks, i, j), name, Build(c, tree).value);
  }

  /** A call somewhere in toks[i..j], with the first argument that does not read at the given span. */
  ghost predicate Blamed(c: Codec, toks: seq<Token>, i: nat, j: nat, span: Span) {
    exists a, b, name :: BlamedCall(c, toks, i, j, a, b, name, span)
  }

  ghost predicate BlamedCall(c: Codec, toks: seq<Token>, i: nat, j: nat, a: nat, b: nat, name: string, span: Span) {
    && i <= a && a + 3 < b <= j <= |toks| && IsKeyword(name) && CallAround(toks, a, b, name)
    && OnlyListTokens(toks, a + 2, b - 1)
    && exists k :: 0 <= k < |Arguments(toks, a, b)| && span == Arguments(toks, a, b)[k].span
         && if name == "is" then UnreadDomainAt(c, Arguments(toks, a, b), k)
            else UnreadSuffixAt(c, Arguments(toks, a, b), k)
  }

  lemma BlamedWithin(c: Codec, toks: seq<Token>, i: nat, j: nat, span: Span, i': nat, j': nat)
    requires Blamed(c, toks, i, j, span) && i' <= i && j <= j' <= |toks|
    ensures Blamed(c, toks, i', j', span)
  {
    hide CallAround, OnlyListTokens, UnreadDomainAt, UnreadSuffixAt, Arguments;
    var a: nat, b: nat, name: string :| BlamedCall(c, toks, i, j, a, b, name, span);
    assert BlamedCall(c, toks, i', j', a, b, name, span);
  }

  lemma CallBlames(c: Codec, toks: seq<Token>, i: nat, j: nat, name: string, r: Built<Expr>)
    requires i + 3 < j <= |toks| && IsKeyword(name) && CallAround(toks, i, j, name)
      && CallDecided(c, name, toks, i, j, r)
    requires r.Faulty? && r.fault == InvalidDomain
    ensures Blamed(c, toks, i, j, r.span)
  {
    hide OnlyListTokens, UnreadDomainAt, UnreadSuffixAt, Arguments;
    KeywordIs(name);
    assert BlamedCall(c, toks, i, j, i, j, name, r.span);
  }

  lemma AtomFault(c: Codec, token: Token)
    ensures Build(c, Atom(token)).Faulty? ==> Build(c, Atom(token)).fault == UnexpectedBooleanToken
  {
  }

  /** A malformed domain is only ever reported at the first unreadable argument of a call that was written. */
  lemma {:induction false} TreeBlames(c: Codec, toks: seq<Token>, i: nat, j: nat, bindingPower: int, tree: Tree)
    requires Derives(GRAMMAR, toks, i, j, bindingPower, tree)
    requires Build(c, tree).Faulty? && Build(c, tree).fault == InvalidDomain
    ensures Blamed(c, toks, i, j, Build(c, tree).span)
    decreases tree, 1
  {
    RangeFits(toks, i, j, bindingPower, tree);
    if tree.Atom? {
      AtomFault(c, tree.token);
    } else {
      RuleIdOf(toks, i, j, bindingPower, tree);
      hide Derives, Build, Blamed, AtomsOf, FullCall, EmptyCall, IsKeyword;
      KeywordNames();
      if ListId(tree.id) {
        ListFaults(c, tree);
      } else if tree.id == "is()" || tree.id == "sub()" {
        EmptyBuilds(c, tree);
      } else if tree.id == "is(...)" || tree.id == "sub(...)" {
        CallTreeBlames(c, toks, i, j, bindingPower, tree, if tree.id == "is(...)" then "is" else "sub");
      } else if tree.id == "!" || tree.id == "(...)" {
        UnaryBlames(c, toks, i, j, bindingPower, tree);
      } else {
        InfixBlames(c, toks, i, j, bindingPower, tree, if tree.id == "&&" then AndOp else OrOp);
      }
    }
  }

  lemma CallTreeBlames(c: Codec, toks: seq<Token>, i: nat, j: nat, bindingPower: int, tree: Tree, name: string)
    requires Derives(GRAMMAR, toks, i, j, bindingPower, tree) && tree.Op? && IsKeyword(name)
      && tree.id == FullCall(name).id
    requires Build(c, tree).Faulty? && Build(c, tree).fault == InvalidDomain
    ensures Blamed(c, toks, i, j, Build(c, tree).span)
  {
    hide Derives, Build, Blamed, AtomsOf, CallDecided, FullCall, CallAround;
    CallDecides(c, toks, i, j, bindingPower, tree, name);
    CallBlames(c, toks, i, j, name, Build(c, tree));
  }

  lemma UnaryBlames(c: Codec, toks: seq<Token>, i: nat, j: nat, bindingPower: int, tree: Tree)
    requires Derives(GRAMMAR, toks, i, j, bindingPower, tree) && tree.Op? && (tree.id == "!" || tree.id == "(...)")
    requires Build(c, tree).Faulty? && Build(c, tree).fault == InvalidDomain
    ensures Blamed(c, toks, i, j, Build(c, tree).span)
    decreases tree, 0
  {
    hide Derives, Build, Blamed, AtomsOf;
    if tree.id == "!" {
      NotShape(toks, i, j, bindingPower, tree);
      UnaryBuilds(c, tree);
      TreeBlames(c, toks, i + 1, j, 30, tree.args[0]);
      BlamedWithin(c, toks, i + 1, j, Build(c, tree).span, i, j);
    } else {
      GroupShape(toks, i, j, bindingPower, tree);
      UnaryBuilds(c, tree);
      TreeBlames(c, toks, i + 1, j - 1, 0, tree.args[0]);
      BlamedWithin(c, toks, i + 1, j - 1, Build(c, tree).span, i, j);
    }
  }

  lemma InfixBlames(c: Codec, toks: seq<Token>, i: nat, j: nat, bindingPower: int, tree: Tree, op: Operator)
    requires Derives(GRAMMAR, toks, i, j, bindingPower, tree) && tree.Op? && tree.id == OperatorText(op)
    requires Build(c, tree).Faulty? && Build(c, tree).fault == InvalidDomain
    ensures Blamed(c, toks, i, j, Build(c, tree).span)
    decreases tree, 0
  {
    hide Derives, Build, Blamed, AtomsOf, OperatorText;
    var m := InfixShape(toks, i, j, bindingPower, tree, op);
    InfixBuilds(c, tree, op);
    if Build(c, tree.args[0]).Faulty? {
      TreeBlames(c, toks, i, m, bindingPower, tree.args[0]);
      BlamedWithin(c, toks, i, m, Build(c, tree).span, i, j);
    } else {
      TreeBlames(c, toks, m + 1, j, BindingPower(op) + 1, tree.args[1]);
      BlamedWithin(c, toks, m + 1, j, Build(c, tree).span, i, j);
    }
  }

  // ---------------------------------------------------------------------------
  // Inputs

  /** An accepted expression spells exactly the atoms of the input. */
  lemma AcceptedSpells(c: Codec, input: string)
    requires ParseDomainExpression(c, input).Accepted?
    ensures Lex(TABLE, input, 0).Tokens?
    ensures Spells(c, AtomsOf(Lex(TABLE, input, 0).tokens), ParseDomainExpression(c, input).e)
  {
    hide Parse, Lex, Valid, Derives, Build, AtomsOf, Spells;
    var toks, tree := ParsedTokens(c, input);
    TreeSpells(c, toks, 0, |toks| - 1, 0, tree);
    WithoutEOF(toks);
  }

  lemma WithoutEOF(toks: seq<Token>)
    requires |toks| > 0 && toks[|toks| - 1].kind.EOFToken?
    ensures AtomsOf(toks[0..|toks| - 1]) == AtomsOf(toks)
  {
    hide AtomsOf;
    var n := |toks| - 1;
    assert toks[0..|toks|] == toks;
    AtomsSplit(toks, 0, n, |toks|);
    AtomsOne(toks, n);
    assert AtomsOf(toks[0..n]) + [] == AtomsOf(toks[0..n]);
  }

  /** What parses has tokens, which its tree derives unless there are none. */
  lemma ParsedTokens(c: Codec, input: string) returns (toks: seq<Token>, tree: Tree)
    requires !ParseDomainExpression(c, input).Malformed?
    ensures Valid(GRAMMAR) && Lex(TABLE, input, 0) == Tokens(toks) && Parse(GRAMMAR, input) == Success(tree)
    ensures |toks| > 1 && toks[|toks| - 1].kind.EOFToken? && Derives(GRAMMAR, toks, 0, |toks| - 1, 0, tree)
  {
    hide Parse, Lex, Derives, Build;
    GrammarValid();
    ParseDerivesInput(GRAMMAR, input);
    toks, tree := Lex(TABLE, input, 0).tokens, Parse(GRAMMAR, input).tree;
    TableOf(GRAMMAR);
    LexStream(TABLE, input);
    NoEmptyForm(input);
    EndsInEOF(toks);
  }

  lemma NoEmptyForm(input: string)
    requires Valid(GRAMMAR) && Parse(GRAMMAR, input).Success?
    ensures Parse(GRAMMAR, input).tree != EmptyTree
  {
    forall r | r in RULES ensures !r.empty { NoEmptyRule(r); }
    hide *;
    ParseDerivesInput(GRAMMAR, input);
    if Parse(GRAMMAR, input).tree == EmptyTree {
      EmptyParse(GRAMMAR, input);
      var r := EmptyFound(RULES);
    }
  }

  lemma EmptyFound(rules: seq<Rule>) returns (r: Rule)
    requires HasEmpty(rules)
    ensures r in rules && r.empty
  {
    var i :| 0 <= i < |rules| && rules[i].empty;
    r := rules[i];
  }

  lemma EmptyParse(g: Pratt, input: string)
    requires Valid(g) && Parse(g, input).Success? && Lex(g.table, input, 0).Tokens?
      && |Lex(g.table, input, 0).tokens| == 1
    ensures HasEmpty(g.rules)
  {
    TableOf(g);
    LexStream(g.table, input);
    hide Valid, Lex, ParseExpression, HasEmpty;
  }

  lemma NoEmptyRule(r: Rule)
    requires r in RULES
    ensures !r.empty
  {
    if r in CALLS {
    } else if r in PREFIXES {
    } else if r in OPERATORS {
    } else {
      assert r in LIST_FORMS;
    }
  }

  lemma EndsInEOF(toks: seq<Token>)
    requires Stream(toks)
    ensures |toks| > 0 && toks[|toks| - 1].kind.EOFToken?
  {
  }

  /** A malformed domain is only ever reported at the first unreadable argument of a call in the input. */
  lemma RejectedBlames(c: Codec, input: string)
    requires var r := ParseDomainExpression(c, input); r.Rejected? && r.fault == InvalidDomain
    ensures Lex(TABLE, input, 0).Tokens?
    ensures var toks := Lex(TABLE, input, 0).tokens;
      |toks| > 0 && Blamed(c, toks, 0, |toks| - 1, ParseDomainExpression(c, input).span)
  {
    hide Parse, Lex, Valid, Derives, Build, Blamed;
    var toks, tree := ParsedTokens(c, input);
    TreeBlames(c, toks, 0, |toks| - 1, 0, tree);
  }

  /** The outcome as the builder's result. */
  function BuiltOutcome(r: Outcome): Built<Expr>
    requires !r.Malformed?
  {
    if r.Accepted? then Built(r.e) else Faulty(r.span, r.fault)
  }

  /** An input that is one call is decided by its own arguments. */
  lemma CallInputDecides(c: Codec, input: string, name: string)
    requires IsKeyword(name) && !ParseDomainExpression(c, input).Malformed?
    requires Valid(GRAMMAR) && Parse(GRAMMAR, input).tree.Op? && Parse(GRAMMAR, input).tree.id == FullCall(name).id
    ensures Lex(TABLE, input, 0).Tokens?
    ensures var toks, n := Lex(TABLE, input, 0).tokens, |Lex(TABLE, input, 0).tokens| - 1;
      3 < n <= |toks| && CallDecided(c, name, toks, 0, n, BuiltOutcome(ParseDomainExpression(c, input)))
  {
    hide Parse, Lex, Valid, Derives, Build, CallDecided, FullCall;
    var toks, tree := ParsedTokens(c, input);
    CallDecides(c, toks, 0, |toks| - 1, 0, tree, name);
  }

  /** The text name(a, b, ...) parses, and its arguments are the given texts. */
  lemma CallTextDecides(c: Codec, name: string, texts: seq<string>) returns (atoms: seq<Token>)
    requires IsKeyword(name) && |texts| > 0 && ArgumentTexts(texts) && NoKeyword(texts)
    ensures |atoms| == |texts| && forall k :: 0 <= k < |texts| ==> atoms[k].text == texts[k]
    ensures var r := ParseDomainExpression(c, Call(name, texts));
      !r.Malformed? && if name == "is" then IsRead(c, atoms, BuiltOutcome(r)) else SubRead(c, atoms, BuiltOutcome(r))
  {
    hide Parse, Lex, Valid, At, ParseExpression, FlattensTo, Build, FullCall, IsRead, SubRead, Call, CallKeys,
         Reads, ArgumentTexts, NoKeyword, FlattenList, IsCall, SubCall, IsKeyword, ParseNull, LeftLoop, NoEOF, Stream;
    var input, keys := Call(name, texts), CallKeys(name, texts);
    CallReads(name, texts, "");
    NoEOFCall(name, texts);
    GrammarValid();
    var toks := TextParses(GRAMMAR, input, keys);
    var tree := CallTokensParse(toks, name, texts);
    atoms := FlattenedTexts(tree.args[0], texts);
    CallBuilds(c, tree, name);
    CallReadsArguments(c, tree.args[0]);
    KeywordIs(name);
  }

  lemma NoEOFCall(name: string, texts: seq<string>)
    ensures NoEOF(CallKeys(name, texts)) && |CallKeys(name, texts)| > 0
  {
    NoEOFList(texts);
    hide ListKeys;
  }

  lemma FlattenedTexts(list: Tree, texts: seq<string>) returns (atoms: seq<Token>)
    requires FlattensTo(list, texts)
    ensures FlattenList(list) == Built(atoms)
    ensures |atoms| == |texts| && forall k :: 0 <= k < |texts| ==> atoms[k].text == texts[k]
  {
    atoms := FlattenList(list).value;
  }

  lemma CallTokensParse(toks: seq<Token>, name: string, texts: seq<string>) returns (tree: Tree)
    requires Stream(toks) && IsKeyword(name) && |texts| > 0 && NoKeyword(texts)
    requires At(toks, 0, CallKeys(name, texts)) && |toks| == |CallKeys(name, texts)| + 1
    ensures |toks| > 0 && ParseExpression(GRAMMAR, toks, 0, 0) == Ok(tree, |toks| - 1)
    ensures tree.Op? && tree.id == FullCall(name).id && |tree.args| == 1 && FlattensTo(tree.args[0], texts)
  {
    hide At, ParseNull, LeftLoop, ParseExpression, FlattensTo, NoKeyword, CallKeys;
    tree := FullCallParses(toks, 0, name, texts);
    ExpressionIsLoop(GRAMMAR, toks, 0, 0, tree, |toks| - 1);
    EndsAtEOF(toks, |toks| - 1, tree);
  }
}
