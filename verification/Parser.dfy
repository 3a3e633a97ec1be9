/** The compiler of Pratt grammars and the recursive-descent parser that walks their tables. */
module Parser {
  import R = Results
  import opened Tokenizer
  import opened Grammar
  import Spec = PrattSpec

  type RuleTable = map<TokenKey, seq<Rule>>

  datatype Compiled = Compiled(
    nullRules: RuleTable, leftRules: RuleTable, implicitRules: seq<Rule>, table: Table, empty: bool)

  function Lookup(t: RuleTable, key: TokenKey): seq<Rule> {
    if key in t then t[key] else []
  }

  function Append(t: RuleTable, key: TokenKey, r: Rule): RuleTable {
    t[key := Lookup(t, key) + [r]]
  }

  /** c holds the rules of g, indexed. */
  ghost predicate Represents(c: Compiled, g: Pratt) {
    && RuleTablesOf(c.nullRules, c.leftRules, c.implicitRules, g.rules)
    && c.table == g.table && (c.empty <==> HasEmpty(g.rules))
  }

  ghost predicate RuleTablesOf(nulls: RuleTable, lefts: RuleTable, implicits: seq<Rule>, rules: seq<Rule>) {
    && (forall key :: Lookup(nulls, key) == NullRules(rules, key))
    && (forall key :: Lookup(lefts, key) == LeftRules(rules, key))
    && implicits == ImplicitRules(rules)
  }

  // ---------------------------------------------------------------------------
  // Compilation

  ghost predicate CollectedFrom(rules: seq<Rule>, symbols: seq<string>) {
    forall s :: s in symbols <==> HasSymbol(rules, s)
  }

  lemma HasSymbolStep(rules: seq<Rule>, r: Rule, s: string)
    ensures HasSymbol(rules + [r], s) <==> HasSymbol(rules, s) || (!r.empty && Symbol(s) in r.pattern)
  {
    var all := rules + [r];
    if HasSymbol(rules, s) {
      var i, k :| 0 <= i < |rules| && !rules[i].empty && 0 <= k < |rules[i].pattern|
        && rules[i].pattern[k] == Symbol(s);
      assert all[i] == rules[i];
    }
    if !r.empty && Symbol(s) in r.pattern {
      var k :| 0 <= k < |r.pattern| && r.pattern[k] == Symbol(s);
      assert all[|rules|] == r;
    }
  }

  /** The checks of one form, collecting its symbols. */
  method CheckForm(form: Rule) returns (ok: bool, symbols: seq<string>)
    requires !form.empty
    ensures ok <==> ValidRule(form)
    ensures ok ==> forall s :: s in symbols <==> Symbol(s) in form.pattern
    ensures ok ==> forall i :: 0 <= i < |symbols| ==> ValidLiteral(symbols[i])
  {
    ok, symbols := false, [];
    if |form.pattern| == 0 { return; }
    if form.implicit && (|form.pattern| != 2 || !form.pattern[0].Hole? || !form.pattern[1].Hole?) { return; }
    for k := 0 to |form.pattern|
      invariant forall i :: 0 <= i < k ==>
        if form.pattern[i].Hole? then form.pattern[i].bindingPower >= 0 else ValidLiteral(form.pattern[i].text)
      invariant forall s :: s in symbols <==> Symbol(s) in form.pattern[..k]
      invariant forall i :: 0 <= i < |symbols| ==> ValidLiteral(symbols[i])
    {
      assert form.pattern[..k + 1] == form.pattern[..k] + [form.pattern[k]];
      match form.pattern[k] {
        case Hole(bindingPower) => if bindingPower < 0 { return; }
        case Keyword(text) => if !ValidLiteral(text) { return; }
        case Symbol(text) =>
          if !ValidLiteral(text) { return; }
          symbols := symbols + [text];
      }
    }
    assert form.pattern[..|form.pattern|] == form.pattern;
    if !form.implicit && form.pattern[0].Hole? && (|form.pattern| < 2 || form.pattern[1].Hole?) { return; }
    ok := true;
  }

  /** The first loop of NewPratt. */
  method CheckForms(forms: seq<Rule>) returns (ok: bool, symbols: seq<string>, empty: bool)
    ensures ok <==> OneEmpty(forms) && forall i :: 0 <= i < |forms| ==> ValidRule(forms[i])
    ensures ok ==> CollectedFrom(forms, symbols) && (empty <==> HasEmpty(forms))
    ensures ok ==> forall i :: 0 <= i < |symbols| ==> ValidLiteral(symbols[i])
  {
    hide ValidLiteral;
    ok, symbols, empty := false, [], false;
    for f := 0 to |forms|
      invariant OneEmpty(forms[..f]) && forall i :: 0 <= i < f ==> ValidRule(forms[i])
      invariant CollectedFrom(forms[..f], symbols) && (empty <==> HasEmpty(forms[..f]))
      invariant forall i :: 0 <= i < |symbols| ==> ValidLiteral(symbols[i])
    {
      assert forms[..f + 1] == forms[..f] + [forms[f]];
      forall s ensures HasSymbol(forms[..f + 1], s) <==>
          HasSymbol(forms[..f], s) || (!forms[f].empty && Symbol(s) in forms[f].pattern) {
        HasSymbolStep(forms[..f], forms[f], s);
      }
      EmptyStep(forms, f);
      hide HasSymbol, HasEmpty, OneEmpty, ValidRule;
      if forms[f].empty {
        if empty { return; }
        empty := true;
        EmptyIsValid(forms[f]);
      } else {
        var valid, more := CheckForm(forms[f]);
        if !valid { return; }
        symbols := symbols + more;
      }
    }
    assert forms[..|forms|] == forms;
    ok := true;
  }

  lemma EmptyIsValid(r: Rule)
    requires r.empty
    ensures ValidRule(r)
  {
  }

  lemma EmptyStep(forms: seq<Rule>, f: nat)
    requires f < |forms|
    ensures HasEmpty(forms[..f + 1]) <==> HasEmpty(forms[..f]) || forms[f].empty
    ensures OneEmpty(forms[..f]) ==> (OneEmpty(forms[..f + 1]) <==> !(forms[f].empty && HasEmpty(forms[..f])))
    ensures OneEmpty(forms) ==> OneEmpty(forms[..f + 1])
  {
    var a, b := forms[..f], forms[..f + 1];
    assert b[f] == forms[f] && forall i :: 0 <= i < f ==> b[i] == a[i];
  }

  /** Every keyword reads back as one atom. */
  method CheckKeywords(forms: seq<Rule>, table: Table) returns (ok: bool)
    ensures ok <==> KeywordsAreAtoms(forms, table)
  {
    hide OneAtom;
    for f := 0 to |forms|
      invariant KeywordsAreAtoms(forms[..f], table)
    {
      assert forms[..f + 1] == forms[..f] + [forms[f]];
      if !forms[f].empty {
        for k := 0 to |forms[f].pattern|
          invariant forall i :: 0 <= i < k && forms[f].pattern[i].Keyword? ==> OneAtom(table, forms[f].pattern[i].text)
        {
          if forms[f].pattern[k].Keyword? {
            var read := Tokenize(table, forms[f].pattern[k].text);
            OneAtomMeans(table, forms[f].pattern[k].text);
            if read.LexError? || |read.tokens| != 2 || !read.tokens[0].kind.AtomToken?
               || read.tokens[0].text != forms[f].pattern[k].text {
              return false;
            }
          }
        }
      }
    }
    assert forms[..|forms|] == forms;
    return true;
  }

  lemma OneAtomMeans(t: Table, text: string)
    ensures var r := Lex(t, text, 0);
      OneAtom(t, text) <==> r.Tokens? && |r.tokens| == 2 && r.tokens[0].kind.AtomToken? && r.tokens[0].text == text
  {
  }

  /** The second loop of NewPratt: index the forms. */
  method IndexForms(forms: seq<Rule>) returns (nulls: RuleTable, lefts: RuleTable, implicits: seq<Rule>)
    requires forall i :: 0 <= i < |forms| ==> ValidRule(forms[i])
    ensures RuleTablesOf(nulls, lefts, implicits, forms)
  {
    nulls, lefts, implicits := map[], map[], [];
    NoRules();
    hide RuleTablesOf, Append, Lookup;
    for f := 0 to |forms|
      invariant RuleTablesOf(nulls, lefts, implicits, forms[..f])
    {
      var form := forms[f];
      IndexStep(nulls, lefts, implicits, forms[..f], form);
      assert forms[..f + 1] == forms[..f] + [form];
      if !form.empty {
        var first := form.pattern[0];
        if form.implicit {
          implicits := implicits + [form];
        } else if first.Hole? {
          lefts := Append(lefts, KeyForPart(form.pattern[1]), form);
        } else {
          nulls := Append(nulls, KeyForPart(first), form);
        }
      }
    }
    assert forms[..|forms|] == forms;
  }

  lemma NoRules()
    ensures RuleTablesOf(map[], map[], [], [])
  {
  }

  lemma IndexKey(table: RuleTable, rules: seq<Rule>, r: Rule, key: TokenKey)
    ensures Lookup(table, key) == NullRules(rules, key) ==>
              Lookup(if IsNull(r) then Append(table, KeyForPart(r.pattern[0]), r) else table, key) ==
                NullRules(rules + [r], key)
    ensures Lookup(table, key) == LeftRules(rules, key) ==>
              Lookup(if IsLeft(r) then Append(table, KeyForPart(r.pattern[1]), r) else table, key) ==
                LeftRules(rules + [r], key)
  {
    assert (rules + [r])[..|rules|] == rules;
  }

  lemma IndexStep(nulls: RuleTable, lefts: RuleTable, implicits: seq<Rule>, rules: seq<Rule>, r: Rule)
    requires RuleTablesOf(nulls, lefts, implicits, rules)
    ensures RuleTablesOf(
      if IsNull(r) then Append(nulls, KeyForPart(r.pattern[0]), r) else nulls,
      if IsLeft(r) then Append(lefts, KeyForPart(r.pattern[1]), r) else lefts,
      if IsImplicit(r) then implicits + [r] else implicits,
      rules + [r])
  {
    var all := rules + [r];
    var nulls' := if IsNull(r) then Append(nulls, KeyForPart(r.pattern[0]), r) else nulls;
    var lefts' := if IsLeft(r) then Append(lefts, KeyForPart(r.pattern[1]), r) else lefts;
    assert ImplicitRules(all) == ImplicitRules(rules) + if IsImplicit(r) then [r] else []
      by { assert all[..|rules|] == rules; }
    hide NullRules, LeftRules, ImplicitRules, Append, Lookup;
    forall key ensures Lookup(nulls', key) == NullRules(all, key) && Lookup(lefts', key) == LeftRules(all, key) {
      assert Lookup(nulls, key) == NullRules(rules, key) && Lookup(lefts, key) == LeftRules(rules, key);
      IndexKey(nulls, rules, r, key);
      IndexKey(lefts, rules, r, key);
    }
  }

  datatype CompileResult = Accepted(pratt: Compiled) | InvalidGrammar

  /** Accepts exactly the compilable forms. */
  method NewPratt(forms: seq<Rule>) returns (r: CompileResult)
    ensures r.Accepted? <==> Compilable(forms)
    ensures r.Accepted? ==> Valid(Pratt(forms, r.pratt.table)) && Represents(r.pratt, Pratt(forms, r.pratt.table))
  {
    hide HasSymbol, HasEmpty, OneEmpty, ValidRule, KeywordsAreAtoms, ValidTable, RuleTablesOf;
    var ok, symbols, empty := CheckForms(forms);
    if !ok { return InvalidGrammar; }
    var t := NewTokenizer(symbols);
    var atoms := CheckKeywords(forms, t);
    if !atoms {
      NotCompilable(forms, t);
      return InvalidGrammar;
    }
    var nulls, lefts, implicits := IndexForms(forms);
    r := Accepted(Compiled(nulls, lefts, implicits, t, empty));
    assert Valid(Pratt(forms, t));
    assert Represents(r.pratt, Pratt(forms, t));
  }

  /** A keyword that does not read back under one table of the symbols does so under none. */
  lemma NotCompilable(forms: seq<Rule>, t: Table)
    requires ValidTable(t) && CollectedFrom(forms, t.symbols) && !KeywordsAreAtoms(forms, t)
    ensures !Compilable(forms)
  {
    if u :| Valid(Pratt(forms, u)) {
      hide ValidTable, HasSymbol, KeywordsAreAtoms, ValidRule;
      assert SameSymbols(u, t);
      TableIrrelevant(forms, u, t);
    }
  }

  // ---------------------------------------------------------------------------
  // Parsing

  datatype Outcome = Parsed(tree: Tree) | Failed(error: ParseError)

  /** The method returned what the specification computes, and stands where it stands. */
  predicate Agrees(o: Outcome, pos: nat, spec: Spec.Parsed) {
    match spec
    case Ok(tree, p) => o == Parsed(tree) && pos == p
    case Err(error) => o == Failed(error)
  }

  class PrattParser {
    const tokens: seq<Token>
    const pratt: Compiled
    ghost const g: Pratt
    /** The number of consumed real tokens; never past EOF. */
    var pos: nat

    ghost predicate Valid()
      reads this
    {
      Spec.Stream(tokens) && pos < |tokens| && Represents(pratt, g)
    }

    constructor (tokens: seq<Token>, pratt: Compiled, ghost g: Pratt)
      requires Spec.Stream(tokens) && Represents(pratt, g)
      ensures Valid() && this.tokens == tokens && this.pratt == pratt && this.g == g && pos == 0
    {
      this.tokens, this.pratt, this.g, pos := tokens, pratt, g, 0;
    }

    function Peek(): Token
      requires Valid()
      reads this
    {
      tokens[pos]
    }

    method Consume() returns (token: Token)
      requires Valid()
      modifies this
      ensures Valid() && token == tokens[old(pos)]
      ensures pos == if token.kind.EOFToken? then old(pos) else old(pos) + 1
    {
      token := Peek();
      if !token.kind.EOFToken? { pos := pos + 1; }
    }

    method ParseExpression(minBindingPower: int) returns (o: Outcome)
      requires Valid()
      modifies this
      ensures Valid() && Agrees(o, pos, Spec.ParseExpression(g, tokens, old(pos), minBindingPower))
      decreases |tokens| - pos, 2, 0
    {
      hide Represents;
      ghost var start := pos;
      var token := Consume();
      o := ParseNull(token);
      if o.Failed? { return; }
      var left := o.tree;
      while true
        invariant Valid() && start < pos
        invariant Spec.ParseExpression(g, tokens, start, minBindingPower)
                  == Spec.LeftLoop(g, tokens, pos, minBindingPower, left)
        decreases |tokens| - pos
      {
        var forms := SelectLeftForms(minBindingPower);
        if |forms| == 0 { return Parsed(left); }
        var next := TryLeftForms(forms, left);
        if next.Failed? { return next; }
        left := next.tree;
      }
    }

    /** The loop over left alternatives. */
    method TryLeftForms(forms: seq<Rule>, left: Tree) returns (o: Outcome)
      requires Valid() && |forms| > 0
      requires forall i :: 0 <= i < |forms| ==> |forms[i].pattern| > 1
      modifies this
      ensures Valid() && Agrees(o, pos, Spec.TryLeft(g, tokens, old(pos), forms, left, R.None))
      decreases |tokens| - pos, 4, 0
    {
      hide Represents;
      var checkpoint := pos;
      var farthest: R.Option<ParseError> := R.None;
      for i := 0 to |forms|
        invariant Valid() && pos == checkpoint && (i > 0 ==> farthest.Some?)
        invariant Spec.TryLeft(g, tokens, checkpoint, forms, left, R.None)
                  == Spec.TryLeft(g, tokens, checkpoint, forms[i..], left, farthest)
      {
        assert forms[i..][1..] == forms[i + 1..];
        o := ParseLeftForm(forms[i], left);
        if o.Parsed? { return; }
        farthest := R.Some(Spec.FartherError(farthest, o.error));
        pos := checkpoint;
      }
      o := Failed(farthest.value);
    }

    method ParseNull(token: Token) returns (o: Outcome)
      requires Valid()
      requires if token.kind.EOFToken? then token == tokens[pos] else pos > 0 && token == tokens[pos - 1]
      modifies this
      ensures Valid()
      ensures !token.kind.EOFToken? ==> Agrees(o, pos, Spec.ParseNull(g, tokens, old(pos), token))
      ensures token.kind.EOFToken? ==> o == Failed(ParseError(token.span, UnexpectedEOF, pos)) && pos == old(pos)
      decreases |tokens| - pos, if token.kind.EOFToken? then 1 else 5, 0
    {
      var candidates := Lookup(pratt.nullRules, KeyForToken(token));
      assert candidates == NullRules(g.rules, KeyForToken(token));
      hide Represents;
      if |candidates| != 0 {
        var checkpoint := pos;
        var farthest: R.Option<ParseError> := R.None;
        for i := 0 to |candidates|
          invariant Valid() && pos == checkpoint && (i > 0 ==> farthest.Some?)
          invariant Spec.ParseNull(g, tokens, checkpoint, token)
                    == Spec.TryNull(g, tokens, checkpoint, token, candidates[i..], farthest)
        {
          assert candidates[i..][1..] == candidates[i + 1..];
          o := ParseNullForm(candidates[i], token);
          if o.Parsed? { return; }
          farthest := R.Some(Spec.FartherError(farthest, o.error));
          pos := checkpoint;
        }
        return Failed(farthest.value);
      }
      if token.kind.AtomToken? { return Parsed(Atom(token)); }
      if token.kind.EOFToken? { return Failed(ParseError(token.span, UnexpectedEOF, pos)); }
      return Failed(ParseError(token.span, UnexpectedToken, pos));
    }

    method SelectLeftForms(minBindingPower: int) returns (forms: seq<Rule>)
      requires Valid()
      ensures forms == Grammar.SelectLeftForms(g, tokens[pos], minBindingPower)
    {
      var key := KeyForToken(Peek());
      var candidates := Lookup(pratt.leftRules, key);
      assert candidates == LeftRules(g.rules, key) && Lookup(pratt.nullRules, key) == NullRules(g.rules, key);
      assert pratt.implicitRules == ImplicitRules(g.rules);
      hide Represents;
      forms := FilterEligible(candidates, minBindingPower);
      if |forms| != 0 || !(Peek().kind.AtomToken? || |Lookup(pratt.nullRules, key)| != 0) { return; }
      forms := FilterEligible(pratt.implicitRules, minBindingPower);
    }

    static method FilterEligible(rs: seq<Rule>, minBindingPower: int) returns (forms: seq<Rule>)
      requires forall i :: 0 <= i < |rs| ==> |rs[i].pattern| > 1 && rs[i].pattern[0].Hole?
      ensures forms == Eligible(rs, minBindingPower)
    {
      forms := [];
      for i := 0 to |rs|
        invariant forms == Eligible(rs[..i], minBindingPower)
      {
        assert rs[..i + 1][..i] == rs[..i];
        if rs[i].pattern[0].bindingPower >= minBindingPower { forms := forms + [rs[i]]; }
      }
      assert rs[..|rs|] == rs;
    }

    method ParseFormTail(form: Rule, tokens0: seq<Token>, span0: Span, args0: seq<Tree>) returns (o: Outcome)
      requires Valid() && |form.pattern| > 0
      modifies this
      ensures Valid() && Agrees(o, pos, Spec.ParseTail(g, tokens, old(pos), form, 1, tokens0, args0, span0))
      decreases |tokens| - pos, 3, 0
    {
      hide Represents;
      var literals, span, args := tokens0, span0, args0;
      for k := 1 to |form.pattern|
        invariant Valid() && old(pos) <= pos
        invariant Spec.ParseTail(g, tokens, old(pos), form, 1, tokens0, args0, span0)
                  == Spec.ParseTail(g, tokens, pos, form, k, literals, args, span)
      {
        var part := form.pattern[k];
        if part.Hole? {
          var child := ParseExpression(part.bindingPower);
          if child.Failed? { return child; }
          args, span := args + [child.tree], FromTo(span, SpanOf(child.tree));
        } else {
          var token, error := Expect(part);
          if error.Some? { return Failed(error.value); }
          literals, span := literals + [token], FromTo(span, token.span);
        }
      }
      o := Parsed(Op(form.id, literals, args, span));
    }

    method ParseNullForm(form: Rule, first: Token) returns (o: Outcome)
      requires Valid() && |form.pattern| > 0
      modifies this
      ensures Valid() && Agrees(o, pos, Spec.ParseTail(g, tokens, old(pos), form, 1, [first], [], first.span))
      decreases |tokens| - pos, 3, 1
    {
      o := ParseFormTail(form, [first], first.span, []);
    }

    method ParseLeftForm(form: Rule, left: Tree) returns (o: Outcome)
      requires Valid() && |form.pattern| > 0
      modifies this
      ensures Valid() && Agrees(o, pos, Spec.ParseTail(g, tokens, old(pos), form, 1, [], [left], SpanOf(left)))
      decreases |tokens| - pos, 3, 1
    {
      o := ParseFormTail(form, [], SpanOf(left), [left]);
    }

    method Expect(part: Part) returns (token: Token, error: R.Option<ParseError>)
      requires Valid() && !part.Hole?
      modifies this
      ensures Valid() && token == tokens[old(pos)]
      ensures KeyForToken(token) == KeyForPart(part) ==> error.None? && pos == old(pos) + 1
      ensures KeyForToken(token) != KeyForPart(part) ==>
        pos == old(pos) && error == R.Some(ParseError(token.span, Spec.Expectation(token, part), pos))
    {
      token, error := Peek(), R.None;
      if KeyForToken(token) == KeyForPart(part) {
        token := Consume();
      } else if token.kind.EOFToken? {
        error := R.Some(ParseError(token.span, MissingToken(part.text), pos));
      } else {
        error := R.Some(ParseError(token.span, ExpectedToken(token.text, part.text), pos));
      }
    }
  }

  /** Parse tokenizes the input and accepts a tree that leaves nothing but EOF. */
  method Parse(pratt: Compiled, ghost g: Pratt, input: string) returns (r: Spec.Result)
    requires Valid(g) && Represents(pratt, g)
    ensures r == Spec.Parse(g, input)
  {
    var lexed := Tokenize(pratt.table, input);
    if lexed.LexError? { return Spec.Failure(lexed.error); }
    Spec.LexStream(g.table, input);
    if lexed.tokens[0].kind.EOFToken? {
      if pratt.empty { return Spec.Success(EmptyTree); }
      return Spec.Failure(ParseError(lexed.tokens[0].span, UnexpectedEOF, 0));
    }
    var parser := new PrattParser(lexed.tokens, pratt, g);
    var o := parser.ParseExpression(0);
    if o.Failed? { return Spec.Failure(o.error); }
    if !parser.Peek().kind.EOFToken? {
      return Spec.Failure(ParseError(parser.Peek().span, UnexpectedToken, parser.pos));
    }
    return Spec.Success(o.tree);
  }
}
