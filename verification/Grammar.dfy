/** Pratt grammars: rules, their validity, and the rule tables a compiled grammar looks tokens up in. */
module Grammar {
  import opened Tokenizer

  type ID = string

  datatype Part = Keyword(text: string) | Symbol(text: string) | Hole(bindingPower: int)

  /** A rule whose pattern starts with a hole extends an expression to its left. */
  datatype Rule = Rule(id: ID, pattern: seq<Part>, empty: bool, implicit: bool)

  datatype Tree =
    | EmptyTree
    | Atom(token: Token)
    | Op(id: ID, tokens: seq<Token>, args: seq<Tree>, span: Span)

  function SpanOf(t: Tree): Span {
    match t
    case EmptyTree => Span(0, 0)
    case Atom(token) => token.span
    case Op(_, _, _, span) => span
  }

  function FromTo(a: Span, b: Span): Span { Span(a.start, b.end) }

  function KeyForPart(p: Part): TokenKey
    requires !p.Hole?
  {
    TokenKey(if p.Symbol? then SymbolToken else AtomToken, p.text)
  }

  /** How a non-empty rule is found: by its first token, by the token after its first hole, or as a last resort. */
  predicate IsNull(r: Rule) {
    !r.empty && !r.implicit && |r.pattern| > 0 && !r.pattern[0].Hole?
  }

  predicate IsLeft(r: Rule) {
    !r.empty && !r.implicit && |r.pattern| > 1 && r.pattern[0].Hole? && !r.pattern[1].Hole?
  }

  predicate IsImplicit(r: Rule) {
    !r.empty && r.implicit && |r.pattern| == 2 && r.pattern[0].Hole? && r.pattern[1].Hole?
  }

  predicate ValidLiteral(text: string) {
    text != "" && NoSpace(text)
  }

  /** The checks NewPratt makes of each rule. */
  predicate ValidRule(r: Rule) {
    r.empty ||
    (&& (IsNull(r) || IsLeft(r) || IsImplicit(r))
     && (forall i :: 0 <= i < |r.pattern| ==>
       if r.pattern[i].Hole? then r.pattern[i].bindingPower >= 0 else ValidLiteral(r.pattern[i].text)))
  }

  datatype Pratt = Pratt(rules: seq<Rule>, table: Table)

  predicate HasEmpty(rules: seq<Rule>) {
    exists i :: 0 <= i < |rules| && rules[i].empty
  }

  predicate OneEmpty(rules: seq<Rule>) {
    forall i, j :: 0 <= i < j < |rules| ==> !(rules[i].empty && rules[j].empty)
  }

  /** text reads back as one atom. */
  predicate OneAtom(t: Table, text: string) {
    var r := Lex(t, text, 0);
    r.Tokens? && |r.tokens| == 2 && r.tokens[0].kind.AtomToken? && r.tokens[0].text == text
  }

  predicate HasSymbol(rules: seq<Rule>, text: string) {
    exists i, k :: 0 <= i < |rules| && !rules[i].empty && 0 <= k < |rules[i].pattern|
      && rules[i].pattern[k] == Symbol(text)
  }

  predicate KeywordsAreAtoms(rules: seq<Rule>, t: Table) {
    forall i, k :: 0 <= i < |rules| && !rules[i].empty && 0 <= k < |rules[i].pattern| && rules[i].pattern[k].Keyword?
      ==> OneAtom(t, rules[i].pattern[k].text)
  }

  /** A grammar NewPratt accepts. */
  ghost predicate Valid(g: Pratt) {
    && (forall i :: 0 <= i < |g.rules| ==> ValidRule(g.rules[i]))
    && OneEmpty(g.rules)
    && ValidTable(g.table) && (forall s :: s in g.table.symbols <==> HasSymbol(g.rules, s))
    && KeywordsAreAtoms(g.rules, g.table)
  }

  /** The forms make a valid grammar with some table. */
  ghost predicate Compilable(rules: seq<Rule>) {
    exists table :: Valid(Pratt(rules, table))
  }

  /** Any other valid table of the same symbols does as well. */
  lemma TableIrrelevant(rules: seq<Rule>, t: Table, u: Table)
    requires Valid(Pratt(rules, t)) && SameSymbols(t, u)
    ensures Valid(Pratt(rules, u))
  {
    hide Lex, ValidRule, HasSymbol;
    forall text: string ensures Lex(t, text, 0) == Lex(u, text, 0) { LexBySet(t, u, text, 0); }
    forall text: string ensures OneAtom(t, text) <==> OneAtom(u, text) {}
    hide OneAtom, ValidTable;
  }

  // ---------------------------------------------------------------------------
  // Rule lookup, in declaration order

  function NullRules(rules: seq<Rule>, key: TokenKey): (rs: seq<Rule>)
    ensures forall i :: 0 <= i < |rs| ==> rs[i] in rules && IsNull(rs[i]) && KeyForPart(rs[i].pattern[0]) == key
    ensures key.kind.EOFToken? ==> rs == []
  {
    if |rules| == 0 then []
    else
      var rest, last := NullRules(rules[..|rules| - 1], key), rules[|rules| - 1];
      if IsNull(last) && KeyForPart(last.pattern[0]) == key then rest + [last] else rest
  }

  function LeftRules(rules: seq<Rule>, key: TokenKey): (rs: seq<Rule>)
    ensures forall i :: 0 <= i < |rs| ==> rs[i] in rules && IsLeft(rs[i]) && KeyForPart(rs[i].pattern[1]) == key
    ensures key.kind.EOFToken? ==> rs == []
  {
    if |rules| == 0 then []
    else
      var rest, last := LeftRules(rules[..|rules| - 1], key), rules[|rules| - 1];
      if IsLeft(last) && KeyForPart(last.pattern[1]) == key then rest + [last] else rest
  }

  function ImplicitRules(rules: seq<Rule>): (rs: seq<Rule>)
    ensures forall i :: 0 <= i < |rs| ==> rs[i] in rules && IsImplicit(rs[i])
  {
    if |rules| == 0 then []
    else
      var rest, last := ImplicitRules(rules[..|rules| - 1]), rules[|rules| - 1];
      if IsImplicit(last) then rest + [last] else rest
  }

  /** The rules among rs, all starting with a hole, that bind at least as tightly as asked. */
  function Eligible(rs: seq<Rule>, minBindingPower: int): (es: seq<Rule>)
    requires forall i :: 0 <= i < |rs| ==> |rs[i].pattern| > 1 && rs[i].pattern[0].Hole?
    ensures forall i :: 0 <= i < |es| ==> es[i] in rs && es[i].pattern[0].bindingPower >= minBindingPower
  {
    if |rs| == 0 then []
    else
      var rest, last := Eligible(rs[..|rs| - 1], minBindingPower), rs[|rs| - 1];
      if last.pattern[0].bindingPower >= minBindingPower then rest + [last] else rest
  }

  predicate CanStartExpression(g: Pratt, token: Token) {
    token.kind.AtomToken? || |NullRules(g.rules, KeyForToken(token))| > 0
  }

  /** Explicit left rules for the token, or the implicit ones when none applies and it could start an expression. */
  function SelectLeftForms(g: Pratt, token: Token, minBindingPower: int): (forms: seq<Rule>)
    ensures forall i :: 0 <= i < |forms| ==>
      && forms[i] in g.rules && (IsImplicit(forms[i]) || IsLeft(forms[i]))
      && forms[i].pattern[0].bindingPower >= minBindingPower
      && (IsLeft(forms[i]) ==> KeyForPart(forms[i].pattern[1]) == KeyForToken(token))
  {
    var explicit := Eligible(LeftRules(g.rules, KeyForToken(token)), minBindingPower);
    if |explicit| > 0 || !CanStartExpression(g, token) then explicit
    else Eligible(ImplicitRules(g.rules), minBindingPower)
  }

  /** No rule is looked up by EOF. */
  lemma NoRuleForEOF(g: Pratt, token: Token)
    requires token.kind.EOFToken?
    ensures NullRules(g.rules, KeyForToken(token)) == [] && LeftRules(g.rules, KeyForToken(token)) == []
    ensures SelectLeftForms(g, token, 0) == [] && !CanStartExpression(g, token)
  {
  }
}
