/** Filters are nothing but formulas: every input that builds is one, and which formulas build is known. */
module FilterLanguage {
  import opened Addresses
  import opened Tokenizer
  import opened Grammar
  import opened PrattSpec
  import opened Reading
  import opened Filter
  import opened FilterSyntax

  // ---------------------------------------------------------------------------
  // The shape of derived trees

  /** The rule of each operator ID. */
  lemma RuleOf(id: ID, rule: Rule)
    requires rule in RULES && rule.id == id
    ensures forall r :: r in RULES && r.id == id ==> r == rule
  {
  }

  lemma IdCases(toks: seq<Token>, i: nat, j: nat, bindingPower: int, tree: Tree)
    requires Derives(GRAMMAR, toks, i, j, bindingPower, tree) && tree.Op?
    ensures tree.id in ["keep-all", "addr-in(...)", "!", "(...)", "&&", "||"]
    ensures bindingPower > 20 ==> tree.id != "&&" && tree.id != "||"
  {
    hide DerivesTail;
    if r :| DerivesNull(GRAMMAR, toks, i, j, tree, r) {
    } else {
      var r, m: nat :| DerivesLeft(GRAMMAR, toks, i, m, j, bindingPower, tree, r);
    }
  }

  lemma NullTree(toks: seq<Token>, i: nat, j: nat, bindingPower: int, tree: Tree, rule: Rule)
    requires Derives(GRAMMAR, toks, i, j, bindingPower, tree) && tree.Op? && tree.id == rule.id
    requires rule in RULES && IsNull(rule)
    ensures i < |toks| && KeyForToken(toks[i]) == KeyForPart(rule.pattern[0])
    ensures DerivesTail(GRAMMAR, toks, i + 1, j, tree, rule, 1, 1, 0)
  {
    RuleOf(tree.id, rule);
    hide DerivesTail;
    if r, m: nat :| DerivesLeft(GRAMMAR, toks, i, m, j, bindingPower, tree, r) {
      assert false;
    }
  }

  lemma LeftTree(toks: seq<Token>, i: nat, j: nat, bindingPower: int, tree: Tree, rule: Rule) returns (m: nat)
    requires Derives(GRAMMAR, toks, i, j, bindingPower, tree) && tree.Op? && tree.id == rule.id
    requires rule in RULES && IsLeft(rule)
    ensures |tree.args| > 0 && Derives(GRAMMAR, toks, i, m, bindingPower, tree.args[0])
    ensures DerivesTail(GRAMMAR, toks, m, j, tree, rule, 1, 0, 1)
  {
    RuleOf(tree.id, rule);
    hide DerivesTail;
    if r :| DerivesNull(GRAMMAR, toks, i, j, tree, r) {
      assert false;
    }
    var r;
    r, m :| DerivesLeft(GRAMMAR, toks, i, m, j, bindingPower, tree, r);
    assert r == rule;
  }

  lemma SymbolStep(toks: seq<Token>, i: nat, j: nat, tree: Tree, rule: Rule, k: nat, ti: nat, ai: nat)
    requires tree.Op? && k < |rule.pattern| && rule.pattern[k].Symbol?
    requires DerivesTail(GRAMMAR, toks, i, j, tree, rule, k, ti, ai)
    ensures i < |toks| && KeyForToken(toks[i]) == S(rule.pattern[k].text)
    ensures DerivesTail(GRAMMAR, toks, i + 1, j, tree, rule, k + 1, ti + 1, ai)
  {
    TokenParts(GRAMMAR, toks, i, j, tree, rule, k, ti, ai);
  }

  lemma TailEnds(toks: seq<Token>, i: nat, j: nat, tree: Tree, rule: Rule, ti: nat, ai: nat)
    requires tree.Op? && DerivesTail(GRAMMAR, toks, i, j, tree, rule, |rule.pattern|, ti, ai)
    ensures i == j && ti == |tree.tokens| && ai == |tree.args|
  {
  }

  lemma RangeFits(toks: seq<Token>, i: nat, j: nat, bindingPower: int, tree: Tree)
    requires Derives(GRAMMAR, toks, i, j, bindingPower, tree)
    ensures i < j <= |toks|
  {
    DerivesConserves(GRAMMAR, toks, i, j, bindingPower, tree);
  }

  lemma KeysSplit(toks: seq<Token>, i: nat, m: nat, j: nat)
    requires i <= m <= j <= |toks|
    ensures Keys(toks[i..j]) == Keys(toks[i..m]) + Keys(toks[m..j])
  {
    assert toks[i..j] == toks[i..m] + toks[m..j];
  }

  lemma KeysOne(toks: seq<Token>, i: nat, j: nat)
    requires i < j <= |toks|
    ensures Keys(toks[i..j]) == [KeyForToken(toks[i])] + Keys(toks[i + 1..j])
  {
    KeysSplit(toks, i, i + 1, j);
    assert toks[i..i + 1] == [toks[i]];
  }

  lemma KeysLast(toks: seq<Token>, i: nat, j: nat)
    requires i < j <= |toks|
    ensures Keys(toks[i..j]) == Keys(toks[i..j - 1]) + [KeyForToken(toks[j - 1])]
  {
    KeysSplit(toks, i, j - 1, j);
    assert toks[j - 1..j] == [toks[j - 1]];
  }

  /** "(" operand ")" from part k of a rule on. */
  lemma EnclosedParts(toks: seq<Token>, i: nat, j: nat, tree: Tree, rule: Rule, k: nat)
    requires tree.Op? && |rule.pattern| == k + 2 && DerivesTail(GRAMMAR, toks, i, j, tree, rule, k, k, 0)
    requires rule.pattern[k] == Hole(0) && rule.pattern[k + 1] == Symbol(")")
    ensures |tree.args| == 1 && i + 1 < j <= |toks| && Derives(GRAMMAR, toks, i, j - 1, 0, tree.args[0])
    ensures KeyForToken(toks[j - 1]) == S(")")
  {
    hide DerivesTail, Derives;
    var m := HoleParts(GRAMMAR, toks, i, j, tree, rule, k, k, 0);
    SymbolStep(toks, m, j, tree, rule, k + 1, k, 1);
    TailEnds(toks, m + 1, j, tree, rule, k + 1, 1);
  }

  lemma GroupShape(toks: seq<Token>, i: nat, j: nat, bindingPower: int, tree: Tree)
    requires Derives(GRAMMAR, toks, i, j, bindingPower, tree) && tree.Op? && tree.id == "(...)"
    ensures |tree.args| == 1 && i + 2 < j <= |toks| && Derives(GRAMMAR, toks, i + 1, j - 1, 0, tree.args[0])
    ensures Keys(toks[i..j]) == [S("(")] + (Keys(toks[i + 1..j - 1]) + [S(")")])
  {
    assert RULES[3] == GROUP_RULE;
    NullTree(toks, i, j, bindingPower, tree, GROUP_RULE);
    hide DerivesTail, Derives, Keys;
    EnclosedParts(toks, i + 1, j, tree, GROUP_RULE, 1);
    KeysOne(toks, i, j);
    KeysLast(toks, i + 1, j);
  }

  lemma AddrInShape(toks: seq<Token>, i: nat, j: nat, bindingPower: int, tree: Tree)
    requires Derives(GRAMMAR, toks, i, j, bindingPower, tree) && tree.Op? && tree.id == "addr-in(...)"
    ensures |tree.args| == 1 && i + 3 < j <= |toks| && Derives(GRAMMAR, toks, i + 2, j - 1, 0, tree.args[0])
    ensures Keys(toks[i..j]) == [A("addr-in")] + ([S("(")] + (Keys(toks[i + 2..j - 1]) + [S(")")]))
  {
    assert RULES[1] == ADDR_IN_RULE;
    NullTree(toks, i, j, bindingPower, tree, ADDR_IN_RULE);
    hide DerivesTail, Derives, Keys;
    SymbolStep(toks, i + 1, j, tree, ADDR_IN_RULE, 1, 1, 0);
    EnclosedParts(toks, i + 2, j, tree, ADDR_IN_RULE, 2);
    KeysOne(toks, i, j);
    KeysOne(toks, i + 1, j);
    KeysLast(toks, i + 2, j);
  }

  lemma NotShape(toks: seq<Token>, i: nat, j: nat, bindingPower: int, tree: Tree)
    requires Derives(GRAMMAR, toks, i, j, bindingPower, tree) && tree.Op? && tree.id == "!"
    ensures |tree.args| == 1 && i + 1 < j <= |toks| && Derives(GRAMMAR, toks, i + 1, j, 30, tree.args[0])
    ensures Keys(toks[i..j]) == [S("!")] + Keys(toks[i + 1..j])
  {
    assert RULES[2] == NOT_RULE;
    NullTree(toks, i, j, bindingPower, tree, NOT_RULE);
    hide DerivesTail, Derives, Keys;
    var m := HoleParts(GRAMMAR, toks, i + 1, j, tree, NOT_RULE, 1, 1, 0);
    TailEnds(toks, m, j, tree, NOT_RULE, 1, 1);
    RangeFits(toks, i + 1, j, 30, tree.args[0]);
    KeysOne(toks, i, j);
  }

  lemma KeepAllShape(toks: seq<Token>, i: nat, j: nat, bindingPower: int, tree: Tree)
    requires Derives(GRAMMAR, toks, i, j, bindingPower, tree) && tree.Op? && tree.id == "keep-all"
    ensures i < j <= |toks| && Keys(toks[i..j]) == [A("keep-all")]
  {
    assert RULES[0] == KEEP_ALL_RULE;
    NullTree(toks, i, j, bindingPower, tree, KEEP_ALL_RULE);
    hide DerivesTail, Derives;
    TailEnds(toks, i + 1, j, tree, KEEP_ALL_RULE, 1, 0);
    assert toks[i..i + 1] == [toks[i]];
  }

  function Sign(conjunction: bool): string { if conjunction then "&&" else "||" }

  function Extension(conjunction: bool): Rule { if conjunction then AND_RULE else OR_RULE }

  lemma ExtensionParts(conjunction: bool)
    ensures var rule := Extension(conjunction);
      && rule in RULES && IsLeft(rule) && rule.id == Sign(conjunction) && |rule.pattern| == 3
      && rule.pattern[1] == Symbol(Sign(conjunction)) && rule.pattern[2].Hole?
  {
    assert RULES[4] == AND_RULE && RULES[5] == OR_RULE;
  }

  lemma InfixShape(toks: seq<Token>, i: nat, j: nat, bindingPower: int, tree: Tree, conjunction: bool) returns (m: nat)
    requires Derives(GRAMMAR, toks, i, j, bindingPower, tree) && tree.Op? && tree.id == Sign(conjunction)
    ensures |tree.args| == 2 && i < m && m + 1 < j <= |toks|
    ensures Derives(GRAMMAR, toks, i, m, bindingPower, tree.args[0])
    ensures |Extension(conjunction).pattern| == 3 && Extension(conjunction).pattern[2].Hole?
    ensures Derives(GRAMMAR, toks, m + 1, j, Extension(conjunction).pattern[2].bindingPower, tree.args[1])
    ensures Keys(toks[i..j]) == Keys(toks[i..m]) + ([S(Sign(conjunction))] + Keys(toks[m + 1..j]))
  {
    var rule := Extension(conjunction);
    ExtensionParts(conjunction);
    hide Sign, Extension, DerivesTail, Derives, Keys;
    m := LeftTree(toks, i, j, bindingPower, tree, rule);
    RangeFits(toks, i, m, bindingPower, tree.args[0]);
    SymbolStep(toks, m, j, tree, rule, 1, 0, 1);
    var n := HoleParts(GRAMMAR, toks, m + 1, j, tree, rule, 2, 1, 1);
    TailEnds(toks, n, j, tree, rule, 1, 2);
    RangeFits(toks, m + 1, j, rule.pattern[2].bindingPower, tree.args[1]);
    KeysSplit(toks, i, m, j);
    KeysOne(toks, m, j);
  }

  // ---------------------------------------------------------------------------
  // Joining formulas

  function JoinSegments(a: Segment, b: Segment): Segment {
    match b
    case Single(o) => AndThen(a, o)
    case AndThen(earlier, o) => AndThen(JoinSegments(a, earlier), o)
  }

  lemma {:induction false} JoinSegmentsKeys(a: Segment, b: Segment)
    ensures SegmentKeys(JoinSegments(a, b)) == SegmentKeys(a) + ([S("&&")] + SegmentKeys(b))
  {
    hide OperandKeys;
    if b.AndThen? {
      JoinSegmentsKeys(a, b.earlier);
    }
  }

  /** f && g as written without parentheses: the segments that meet become one. */
  function JoinAnd(f: Formula, g: Formula): Formula {
    match g
    case Only(s) =>
      (match f
       case Only(r) => Only(JoinSegments(r, s))
       case OrElse(before, r) => OrElse(before, JoinSegments(r, s)))
    case OrElse(before, s) => OrElse(JoinAnd(f, before), s)
  }

  function JoinOr(f: Formula, g: Formula): Formula {
    match g
    case Only(s) => OrElse(f, s)
    case OrElse(before, s) => OrElse(JoinOr(f, before), s)
  }

  function Join(conjunction: bool, f: Formula, g: Formula): Formula {
    if conjunction then JoinAnd(f, g) else JoinOr(f, g)
  }

  lemma {:induction false} JoinKeys(conjunction: bool, f: Formula, g: Formula)
    ensures FormulaKeys(Join(conjunction, f, g)) == FormulaKeys(f) + ([S(Sign(conjunction))] + FormulaKeys(g))
  {
    hide SegmentKeys, JoinSegments;
    if g.OrElse? {
      JoinKeys(conjunction, f, g.before);
    } else {
      JoinSegmentsKeys(f.segment, g.segment);
    }
  }

  lemma {:induction false} JoinLeaves(conjunction: bool, f: Formula, g: Formula)
    ensures FormulaLeaves(Join(conjunction, f, g)) == FormulaLeaves(f) + FormulaLeaves(g)
  {
    hide SegmentLeaves, JoinSegments;
    if g.OrElse? {
      JoinLeaves(conjunction, f, g.before);
    } else {
      JoinSegmentLeaves(f.segment, g.segment);
    }
  }

  lemma {:induction false} JoinSegmentLeaves(a: Segment, b: Segment)
    ensures SegmentLeaves(JoinSegments(a, b)) == SegmentLeaves(a) + SegmentLeaves(b)
  {
    hide OperandLeaves;
    if b.AndThen? { JoinSegmentLeaves(a, b.earlier); }
  }

  /** No argument is a keyword of the filter language. */
  predicate NoKeywords(leaves: seq<Leaf>) {
    forall l :: l in leaves && l.Argument? ==> !IsKeyword(l.text)
  }

  // ---------------------------------------------------------------------------
  // Every built tree is a formula's

  predicate IsInfix(tree: Tree) {
    tree.Op? && (tree.id == "&&" || tree.id == "||")
  }

  lemma InfixBuilt(c: Codec, family: Family, tree: Tree, topLevel: bool, conjunction: bool)
    requires Build(c, tree, family, topLevel).Built? && tree.Op? && tree.id == Sign(conjunction) && |tree.args| == 2
    ensures Build(c, tree.args[0], family, false).Built? && Build(c, tree.args[1], family, false).Built?
  {
  }

  lemma BuiltParts(c: Codec, family: Family, tree: Tree, topLevel: bool)
    requires Build(c, tree, family, topLevel).Built?
    ensures tree.Op?
    ensures tree.id == "addr-in(...)" && |tree.args| == 1 ==> tree.args[0].Atom?
    ensures (tree.id == "!" || tree.id == "(...)") && |tree.args| == 1 ==> Build(c, tree.args[0], family, false).Built?
  {
  }

  /** A built tree that no binary form made reads as one operand; any other as a formula. */
  lemma {:induction false} TreeIsFormula(c: Codec, family: Family, toks: seq<Token>, i: nat, j: nat, bindingPower: int,
                                         tree: Tree, topLevel: bool)
    returns (f: Formula)
    requires Derives(GRAMMAR, toks, i, j, bindingPower, tree) && Build(c, tree, family, topLevel).Built?
    ensures i < j <= |toks| && Keys(toks[i..j]) == FormulaKeys(f)
    ensures !IsInfix(tree) ==> f.Only? && f.segment.Single?
    ensures NoKeywords(FormulaLeaves(f))
    decreases tree, 1
  {
    RangeFits(toks, i, j, bindingPower, tree);
    BuiltParts(c, family, tree, topLevel);
    IdCases(toks, i, j, bindingPower, tree);
    hide Build, Derives, Keys, FormulaKeys, OperandKeys, SegmentKeys, FormulaLeaves, OperandLeaves, SegmentLeaves;
    if tree.id == "keep-all" {
      KeepAllShape(toks, i, j, bindingPower, tree);
      f := Only(Single(Everything));
      OperandFormula(Everything);
    } else if tree.id == "addr-in(...)" {
      AddrInShape(toks, i, j, bindingPower, tree);
      var text := AtomKeys(toks, i + 2, j - 1, tree.args[0]);
      f := Only(Single(InPrefix(text)));
      OperandFormula(InPrefix(text));
    } else if tree.id == "!" {
      f := NotIsFormula(c, family, toks, i, j, bindingPower, tree, topLevel);
    } else if tree.id == "(...)" {
      GroupShape(toks, i, j, bindingPower, tree);
      var inner := TreeIsFormula(c, family, toks, i + 1, j - 1, 0, tree.args[0], false);
      f := Only(Single(Group(inner)));
      OperandFormula(Group(inner));
    } else {
      f := InfixIsFormula(c, family, toks, i, j, bindingPower, tree, topLevel, tree.id == "&&");
    }
  }

  lemma NotIsFormula(c: Codec, family: Family, toks: seq<Token>, i: nat, j: nat, bindingPower: int,
                     tree: Tree, topLevel: bool)
    returns (f: Formula)
    requires Derives(GRAMMAR, toks, i, j, bindingPower, tree) && Build(c, tree, family, topLevel).Built?
    requires tree.Op? && tree.id == "!"
    ensures i < j <= |toks| && Keys(toks[i..j]) == FormulaKeys(f) && NoKeywords(FormulaLeaves(f))
    ensures f.Only? && f.segment.Single?
    decreases tree, 0
  {
    BuiltParts(c, family, tree, topLevel);
    NotShape(toks, i, j, bindingPower, tree);
    BuiltParts(c, family, tree.args[0], false);
    IdCases(toks, i + 1, j, 30, tree.args[0]);
    assert !IsInfix(tree.args[0]);
    hide *;
    var inner := TreeIsFormula(c, family, toks, i + 1, j, 30, tree.args[0], false);
    f := Only(Single(Bang(inner.segment.first)));
    OperandFormula(inner.segment.first);
    OperandFormula(Bang(inner.segment.first));
  }

  lemma NoKeywordsConcat(a: seq<Leaf>, b: seq<Leaf>)
    requires NoKeywords(a) && NoKeywords(b)
    ensures NoKeywords(a + b)
  {
  }

  lemma InfixIsFormula(c: Codec, family: Family, toks: seq<Token>, i: nat, j: nat, bindingPower: int,
                       tree: Tree, topLevel: bool, conjunction: bool)
    returns (f: Formula)
    requires Derives(GRAMMAR, toks, i, j, bindingPower, tree) && Build(c, tree, family, topLevel).Built?
    requires tree.Op? && tree.id == Sign(conjunction)
    ensures i < j <= |toks| && Keys(toks[i..j]) == FormulaKeys(f) && NoKeywords(FormulaLeaves(f))
    decreases tree, 0
  {
    hide *;
    var m := InfixShape(toks, i, j, bindingPower, tree, conjunction);
    InfixBuilt(c, family, tree, topLevel, conjunction);
    var l := TreeIsFormula(c, family, toks, i, m, bindingPower, tree.args[0], false);
    var power := Extension(conjunction).pattern[2].bindingPower;
    var r := TreeIsFormula(c, family, toks, m + 1, j, power, tree.args[1], false);
    JoinKeys(conjunction, l, r);
    JoinLeaves(conjunction, l, r);
    NoKeywordsConcat(FormulaLeaves(l), FormulaLeaves(r));
    f := Join(conjunction, l, r);
  }

  lemma OperandFormula(o: Operand)
    ensures FormulaKeys(Only(Single(o))) == OperandKeys(o)
    ensures match o
      case Everything => OperandKeys(o) == [A("keep-all")]
      case InPrefix(text) => OperandKeys(o) == [A("addr-in")] + ([S("(")] + ([A(text)] + [S(")")]))
      case Bang(inner) => OperandKeys(o) == [S("!")] + OperandKeys(inner)
      case Group(f) => OperandKeys(o) == [S("(")] + (FormulaKeys(f) + [S(")")])
    ensures FormulaLeaves(Only(Single(o))) == OperandLeaves(o)
    ensures match o
      case Everything => OperandLeaves(o) == [Sentinel]
      case InPrefix(text) => OperandLeaves(o) == [Argument(text)]
      case Bang(inner) => OperandLeaves(o) == OperandLeaves(inner)
      case Group(f) => OperandLeaves(o) == FormulaLeaves(f)
  {
  }

  lemma AtomKeys(toks: seq<Token>, i: nat, j: nat, tree: Tree) returns (text: string)
    requires tree.Atom? && Derives(GRAMMAR, toks, i, j, 0, tree)
    ensures j == i + 1 <= |toks| && Keys(toks[i..j]) == [A(text)] && !IsKeyword(text)
  {
    text := tree.token.text;
    NullLookup(A(text));
    assert toks[i..i + 1] == [toks[i]];
  }

  // ---------------------------------------------------------------------------
  // Inputs

  /** The tokens of the input are those of the formula, however spaced. */
  ghost predicate Writes(input: string, f: Formula) {
    var r := Lex(TABLE, input, 0);
    r.Tokens? && |r.tokens| == |FormulaKeys(f)| + 1 && At(r.tokens, 0, FormulaKeys(f))
  }

  /** Whatever is accepted is written as a formula. */
  lemma AcceptedIsFormula(c: Codec, family: Family, input: string) returns (f: Formula)
    requires ParseFilter(c, family, input).Accepted?
    ensures Writes(input, f) && NoKeywords(FormulaLeaves(f))
  {
    hide Parse, Lex, Valid, Derives, Build, FormulaKeys, NoKeywords;
    GrammarValid();
    ParseDerivesInput(GRAMMAR, input);
    var toks, tree := Lex(TABLE, input, 0).tokens, Parse(GRAMMAR, input).tree;
    EmptyBuildsNothing(c, family);
    f := TreeIsFormula(c, family, toks, 0, |toks| - 1, 0, tree, true);
    KeysAt(toks, FormulaKeys(f));
  }

  lemma EmptyBuildsNothing(c: Codec, family: Family)
    ensures Build(c, EmptyTree, family, true).Faulty?
  {
  }

  lemma KeysAt(toks: seq<Token>, keys: seq<TokenKey>)
    requires |toks| > 0 && Keys(toks[0..|toks| - 1]) == keys
    ensures |toks| == |keys| + 1 && At(toks, 0, keys)
  {
    forall k | 0 <= k < |keys| ensures KeyForToken(toks[0 + k]) == keys[k] {
      assert Keys(toks[0..|toks| - 1])[k] == KeyForToken(toks[k]);
    }
  }

  lemma {:induction false} OperandLeafKeys(o: Operand, l: Leaf)
    requires l in OperandLeaves(o) && l.Argument?
    ensures A(l.text) in OperandKeys(o)
    decreases o, 0
  {
    match o
    case Everything =>
    case InPrefix(text) => assert OperandKeys(o)[2] == A(text);
    case Bang(inner) => OperandLeafKeys(inner, l);
    case Group(f) => FormulaLeafKeys(f, l);
  }

  lemma {:induction false} SegmentLeafKeys(s: Segment, l: Leaf)
    requires l in SegmentLeaves(s) && l.Argument?
    ensures A(l.text) in SegmentKeys(s)
    decreases s, 1
  {
    match s
    case Single(o) => OperandLeafKeys(o, l);
    case AndThen(earlier, o) =>
      if l in SegmentLeaves(earlier) { SegmentLeafKeys(earlier, l); } else { OperandLeafKeys(o, l); }
  }

  lemma {:induction false} FormulaLeafKeys(f: Formula, l: Leaf)
    requires l in FormulaLeaves(f) && l.Argument?
    ensures A(l.text) in FormulaKeys(f)
    decreases f, 2
  {
    match f
    case Only(s) => SegmentLeafKeys(s, l);
    case OrElse(before, s) =>
      if l in FormulaLeaves(before) { FormulaLeafKeys(before, l); } else { SegmentLeafKeys(s, l); }
  }

  /** What was tokenized could stand alone. */
  lemma WrittenIsWritable(input: string, f: Formula)
    requires Writes(input, f) && NoKeywords(FormulaLeaves(f))
    ensures Writable(FormulaLeaves(f))
  {
    hide Lex, FormulaKeys, FormulaLeaves, Faithful, Blank, ValidTable;
    GrammarValid();
    TableOf(GRAMMAR);
    TokenizeIsLossless(TABLE, input);
    var toks := Lex(TABLE, input, 0).tokens;
    forall l | l in FormulaLeaves(f) && l.Argument? ensures Standalone(TABLE, A(l.text)) {
      FormulaLeafKeys(f, l);
      var k :| 0 <= k < |FormulaKeys(f)| && FormulaKeys(f)[k] == A(l.text);
      assert KeyForToken(toks[0 + k]) == A(l.text);
      FaithfulStandsAlone(input, toks[k]);
    }
  }

  lemma FaithfulStandsAlone(input: string, token: Token)
    requires Faithful(TABLE, input, token)
    ensures Standalone(TABLE, KeyForToken(token))
  {
  }

  /** keep-all alone, or arguments that all are prefixes of the family. */
  ghost predicate Acceptable(c: Codec, family: Family, f: Formula) {
    NoKeywords(FormulaLeaves(f)) && (f == BARE || forall l :: l in FormulaLeaves(f) ==> Good(c, family, l))
  }

  /** The inputs accepted are exactly those written as acceptable formulas, and they mean what the formulas mean. */
  lemma AcceptsExactly(c: Codec, family: Family, input: string)
    ensures ParseFilter(c, family, input).Accepted? <==> exists f :: Writes(input, f) && Acceptable(c, family, f)
    ensures forall f: Formula :: Writes(input, f) && Acceptable(c, family, f) && f != BARE ==>
      Verdict(c, family, f, ParseFilter(c, family, input))
  {
    hide ParseFilter, Writes, Acceptable, Verdict, Writable, NoKeywords, FormulaLeaves;
    forall f: Formula | Writes(input, f) && Acceptable(c, family, f)
      ensures ParseFilter(c, family, input).Accepted?
      ensures f != BARE ==> Verdict(c, family, f, ParseFilter(c, family, input))
    {
      AcceptableAccepted(c, family, f, input);
    }
    if ParseFilter(c, family, input).Accepted? {
      var f := AcceptedIsFormula(c, family, input);
      AcceptedIsAcceptable(c, family, f, input);
    }
  }

  lemma AcceptableAccepted(c: Codec, family: Family, f: Formula, input: string)
    requires Writes(input, f) && Acceptable(c, family, f)
    ensures ParseFilter(c, family, input).Accepted?
    ensures f != BARE ==> Verdict(c, family, f, ParseFilter(c, family, input))
  {
    hide Lex, ParseFilter, FormulaLeaves, FormulaKeys, Writable, NoKeywords, Good;
    WrittenIsWritable(input, f);
    TokensDecide(c, family, f, input, Lex(TABLE, input, 0).tokens);
  }

  lemma AcceptedIsAcceptable(c: Codec, family: Family, f: Formula, input: string)
    requires Writes(input, f) && NoKeywords(FormulaLeaves(f)) && ParseFilter(c, family, input).Accepted?
    ensures Acceptable(c, family, f)
  {
    hide Lex, ParseFilter, FormulaLeaves, FormulaKeys, Writable, NoKeywords, Good;
    WrittenIsWritable(input, f);
    TokensDecide(c, family, f, input, Lex(TABLE, input, 0).tokens);
  }
}
