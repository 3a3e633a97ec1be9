/** The text of domain expressions: grammar, printer, and the builder that reads parse trees. */
module DomainText {
  import opened Domains
  import opened DomainExpr
  import opened Tokenizer
  import opened Grammar
  import opened Operators

  // ---------------------------------------------------------------------------
  // The grammar

  const IS_EMPTY := Rule("is()", [Keyword("is"), Symbol("("), Symbol(")")], false, false)
  const IS_CALL := Rule("is(...)", [Keyword("is"), Symbol("("), Hole(0), Symbol(")")], false, false)
  const SUB_EMPTY := Rule("sub()", [Keyword("sub"), Symbol("("), Symbol(")")], false, false)
  const SUB_CALL := Rule("sub(...)", [Keyword("sub"), Symbol("("), Hole(0), Symbol(")")], false, false)
  const NOT := Rule("!", [Symbol("!"), Hole(30)], false, false)
  const GROUP := Rule("(...)", [Symbol("("), Hole(0), Symbol(")")], false, false)
  const AND := Rule("&&", [Hole(20), Symbol("&&"), Hole(21)], false, false)
  const OR := Rule("||", [Hole(10), Symbol("||"), Hole(11)], false, false)
  const LEADING_COMMA := Rule(",lead", [Symbol(","), Hole(6)], false, false)
  const COMMA_ONLY := Rule(",only", [Symbol(",")], false, false)
  const COMMA := Rule(",", [Hole(5), Symbol(","), Hole(6)], false, false)
  const TRAILING_COMMA := Rule(",trail", [Hole(5), Symbol(",")], false, false)
  const MISSING_COMMA := Rule(",missing", [Hole(5), Hole(6)], false, true)

  const CALLS: seq<Rule> := [IS_EMPTY, IS_CALL, SUB_EMPTY, SUB_CALL]
  const PREFIXES: seq<Rule> := [NOT, GROUP]
  const OPERATORS: seq<Rule> := [AND, OR]
  const COMMAS: seq<Rule> := [LEADING_COMMA, COMMA_ONLY]
  const LIST_EXTENSIONS: seq<Rule> := [COMMA, TRAILING_COMMA, MISSING_COMMA]
  const LIST_FORMS: seq<Rule> := COMMAS + LIST_EXTENSIONS

  const RULES: seq<Rule> := ((CALLS + PREFIXES) + OPERATORS) + LIST_FORMS

  const TABLE := COMMA_TABLE

  const GRAMMAR := Pratt(RULES, TABLE)

  // ---------------------------------------------------------------------------
  // Domain arguments

  datatype DomainRead = GoodDomain(domain: Domain) | TooFewLabels(domain: Domain) | BadDomain
  datatype SuffixRead = GoodSuffix(suffix: Suffix) | WildcardSuffix | BadSuffix

  /** Printing and parsing of domains and suffixes, IDNA included. */
  datatype Codec = Codec(
    showDomain: Domain -> string, newDomain: string -> DomainRead,
    showSuffix: Suffix -> string, newSuffix: string -> SuffixRead)

  /** Text the tokenizer reads as one atom. */
  predicate ArgumentText(s: string) {
    s != "" && NoSpace(s) && Unreserved(TABLE, s)
  }

  /** is() keeps the domain it read, even with too few labels. */
  predicate Keeps(r: DomainRead, d: Domain) {
    (r.GoodDomain? || r.TooFewLabels?) && r.domain == d
  }

  predicate GoodDomainText(c: Codec, d: Domain) {
    ArgumentText(c.showDomain(d)) && Keeps(c.newDomain(c.showDomain(d)), d)
  }

  predicate GoodSuffixText(c: Codec, s: Suffix) {
    ArgumentText(c.showSuffix(s)) && c.newSuffix(c.showSuffix(s)) == GoodSuffix(s)
  }

  /** Whatever was read prints as an argument that reads back to the same value. */
  ghost predicate GoodCodec(c: Codec) {
    && (forall text, d :: Keeps(c.newDomain(text), d) ==> GoodDomainText(c, d))
    && (forall text, s :: c.newSuffix(text) == GoodSuffix(s) ==> GoodSuffixText(c, s))
  }

  function DomainTexts(c: Codec, ds: seq<Domain>): seq<string> {
    seq(|ds|, i requires 0 <= i < |ds| => c.showDomain(ds[i]))
  }

  function SuffixTexts(c: Codec, ss: seq<Suffix>): seq<string> {
    seq(|ss|, i requires 0 <= i < |ss| => c.showSuffix(ss[i]))
  }

  /** Every argument of e reads back. */
  predicate Printable(c: Codec, e: Expr) {
    match e
    case Literal(_) => true
    case Is(ds) => forall i :: 0 <= i < |ds| ==> GoodDomainText(c, ds[i])
    case Sub(ss) => forall i :: 0 <= i < |ss| ==> GoodSuffixText(c, ss[i])
    case Not(x) => Printable(c, x)
    case Binary(_, l, r) => Printable(c, l) && Printable(c, r)
  }

  predicate IsKeyword(text: string) { text == "is" || text == "sub" }

  predicate NoKeyword(texts: seq<string>) {
    forall i :: 0 <= i < |texts| ==> !IsKeyword(texts[i])
  }

  /** No argument of e prints as a keyword. */
  predicate KeywordFree(c: Codec, e: Expr) {
    match e
    case Literal(_) => true
    case Is(ds) => NoKeyword(DomainTexts(c, ds))
    case Sub(ss) => NoKeyword(SuffixTexts(c, ss))
    case Not(x) => KeywordFree(c, x)
    case Binary(_, l, r) => KeywordFree(c, l) && KeywordFree(c, r)
  }

  // ---------------------------------------------------------------------------
  // The printer

  /** How tightly the printed form binds; atoms are never wrapped. */
  function Precedence(e: Expr): nat {
    match e
    case Not(_) => 3
    case Binary(AndOp, _, _) => 2
    case Binary(OrOp, _, _) => 1
    case _ => 4
  }

  function OperatorText(op: Operator): string { if op == AndOp then "&&" else "||" }

  function OperatorPrecedence(op: Operator): nat { if op == AndOp then 2 else 1 }

  /** `strings.Join` with ", ". */
  function Join(texts: seq<string>): string {
    if |texts| == 0 then "" else texts[0] + JoinRest(texts[1..])
  }

  function JoinRest(texts: seq<string>): string {
    if |texts| == 0 then "" else "," + (" " + (texts[0] + JoinRest(texts[1..])))
  }

  function Call(name: string, texts: seq<string>): string {
    name + ("(" + (Join(texts) + ")"))
  }

  function Body(c: Codec, e: Expr): string
    decreases e, 0
  {
    match e
    case Literal(value) => if value then "true" else "false"
    case Is(ds) => Call("is", DomainTexts(c, ds))
    case Sub(ss) => Call("sub", SuffixTexts(c, ss))
    case Not(x) => "!" + Show(c, x, 3)
    case Binary(op, l, r) =>
      var context := OperatorPrecedence(op);
      Show(c, l, context) + (" " + (OperatorText(op) + (" " + Show(c, r, context))))
  }

  /** exprStringPrec: parentheses where the context binds more tightly. */
  function Show(c: Codec, e: Expr, context: nat): string
    decreases e, 1
  {
    if Precedence(e) < context then "(" + (Body(c, e) + ")") else Body(c, e)
  }

  /** exprString. */
  function ExprString(c: Codec, e: Expr): string { Show(c, e, 0) }

  // ---------------------------------------------------------------------------
  // The builder

  datatype Fault = NotBooleanExpression | UnexpectedBooleanToken | UnexpectedListToken | InvalidDomain

  datatype Built<T> = Built(value: T) | Faulty(span: Span, fault: Fault)

  /** The spellings `strconv.ParseBool` accepts. */
  function ParseBooleanLiteral(text: string): Built<Expr> {
    if text in ["1", "t", "T", "TRUE", "true", "True"] then Built(Literal(true))
    else if text in ["0", "f", "F", "FALSE", "false", "False"] then Built(Literal(false))
    else Faulty(Span(0, 0), UnexpectedBooleanToken)
  }

  /** The atoms of a comma list, commas of any shape dropped. */
  function FlattenList(tree: Tree): Built<seq<Token>> {
    match tree
    case EmptyTree => Built([])
    case Atom(token) => Built([token])
    case Op(id, tokens, args, span) =>
      if (id == "," || id == ",missing") && |args| > 1 then
        var left := FlattenList(args[0]);
        if left.Faulty? then left
        else
          var right := FlattenList(args[1]);
          if right.Faulty? then right else Built(left.value + right.value)
      else if id == ",only" then Built([])
      else if (id == ",lead" || id == ",trail") && |args| > 0 then FlattenList(args[0])
      else Faulty(if |tokens| > 0 then tokens[0].span else span, UnexpectedListToken)
  }

  /** The domains of an is() list, up to the first malformed one. */
  function KeepDomains(c: Codec, tokens: seq<Token>): Built<seq<Domain>> {
    if |tokens| == 0 then Built([])
    else
      var before, last := KeepDomains(c, tokens[..|tokens| - 1]), tokens[|tokens| - 1];
      if before.Faulty? then before
      else
        match c.newDomain(last.text)
        case GoodDomain(d) => Built(before.value + [d])
        case TooFewLabels(d) => Built(before.value + [d])
        case BadDomain => Faulty(last.span, InvalidDomain)
  }

  /** The suffixes of a sub() list, wildcards skipped, up to the first malformed one. */
  function KeepSuffixes(c: Codec, tokens: seq<Token>): Built<seq<Suffix>> {
    if |tokens| == 0 then Built([])
    else
      var before, last := KeepSuffixes(c, tokens[..|tokens| - 1]), tokens[|tokens| - 1];
      if before.Faulty? then before
      else
        match c.newSuffix(last.text)
        case GoodSuffix(s) => Built(before.value + [s])
        case WildcardSuffix => before
        case BadSuffix => Faulty(last.span, InvalidDomain)
  }

  function IsCall(c: Codec, list: Tree): Built<Expr> {
    match FlattenList(list)
    case Faulty(span, fault) => Faulty(span, fault)
    case Built(tokens) =>
      match KeepDomains(c, tokens)
      case Faulty(span, fault) => Faulty(span, fault)
      case Built(ds) => Built(Is(ds))
  }

  function SubCall(c: Codec, list: Tree): Built<Expr> {
    match FlattenList(list)
    case Faulty(span, fault) => Faulty(span, fault)
    case Built(tokens) =>
      match KeepSuffixes(c, tokens)
      case Faulty(span, fault) => Faulty(span, fault)
      case Built(ss) => Built(Sub(ss))
  }

  /** The first token of an operator or of its first argument, whichever comes first. */
  function FirstSpan(tree: Tree): Span {
    match tree
    case EmptyTree => Span(0, 0)
    case Atom(token) => token.span
    case Op(_, tokens, args, span) =>
      if |tokens| > 0 && (|args| == 0 || tokens[0].span.start < SpanOf(args[0]).start) then tokens[0].span
      else if |args| > 0 then FirstSpan(args[0])
      else span
  }

  /** buildExpr. */
  function Build(c: Codec, tree: Tree): Built<Expr> {
    match tree
    case EmptyTree => Faulty(Span(0, 0), NotBooleanExpression)
    case Atom(token) =>
      (match ParseBooleanLiteral(token.text)
       case Built(e) => Built(e)
       case Faulty(_, fault) => Faulty(token.span, fault))
    case Op(id, tokens, args, span) =>
      if id == ",missing" && |args| > 1 then Faulty(FirstSpan(args[1]), UnexpectedBooleanToken)
      else if id == "!" && |args| > 0 then
        var operand := Build(c, args[0]);
        if operand.Faulty? then operand else Built(Not(operand.value))
      else if (id == "&&" || id == "||") && |args| > 1 then
        var left := Build(c, args[0]);
        if left.Faulty? then left
        else
          var right := Build(c, args[1]);
          if right.Faulty? then right
          else Built(Binary(if id == "&&" then AndOp else OrOp, left.value, right.value))
      else if id == "(...)" && |args| > 0 then Build(c, args[0])
      else if id == "is()" then Built(Is([]))
      else if id == "is(...)" && |args| > 0 then IsCall(c, args[0])
      else if id == "sub()" then Built(Sub([]))
      else if id == "sub(...)" && |args| > 0 then SubCall(c, args[0])
      else Faulty(if |tokens| > 0 then tokens[0].span else span, UnexpectedBooleanToken)
  }

  // ---------------------------------------------------------------------------
  // What the builder makes of a call's arguments

  /** Every argument reads as the domain in its place; or the first that is malformed is blamed. */
  ghost predicate DomainsRead(c: Codec, tokens: seq<Token>, r: Built<seq<Domain>>) {
    match r
    case Built(ds) => |ds| == |tokens| && forall k :: 0 <= k < |tokens| ==> Keeps(c.newDomain(tokens[k].text), ds[k])
    case Faulty(span, fault) =>
      fault == InvalidDomain && exists k :: 0 <= k < |tokens| && UnreadDomainAt(c, tokens, k) && span == tokens[k].span
  }

  /** Argument k is the first malformed one. */
  ghost predicate UnreadDomainAt(c: Codec, tokens: seq<Token>, k: nat)
    requires k < |tokens|
  {
    c.newDomain(tokens[k].text).BadDomain? && forall j :: 0 <= j < k ==> !c.newDomain(tokens[j].text).BadDomain?
  }

  /** The arguments read, in order, as the suffixes, with wildcards between them; or the first malformed one is
      blamed. */
  ghost predicate SuffixesRead(c: Codec, tokens: seq<Token>, r: Built<seq<Suffix>>) {
    match r
    case Built(ss) => exists places :: Places(c, tokens, ss, places)
    case Faulty(span, fault) =>
      fault == InvalidDomain && exists k :: 0 <= k < |tokens| && UnreadSuffixAt(c, tokens, k) && span == tokens[k].span
  }

  /** Suffix m was read at places[m], and every other argument is a wildcard. */
  ghost predicate Places(c: Codec, tokens: seq<Token>, ss: seq<Suffix>, places: seq<nat>) {
    && |places| == |ss|
    && (forall m :: 0 <= m < |places| ==> places[m] < |tokens|)
    && (forall m, n :: 0 <= m < n < |places| ==> places[m] < places[n])
    && (forall m :: 0 <= m < |places| ==> c.newSuffix(tokens[places[m]].text) == GoodSuffix(ss[m]))
    && (forall k :: 0 <= k < |tokens| && k !in places ==> c.newSuffix(tokens[k].text).WildcardSuffix?)
  }

  ghost predicate UnreadSuffixAt(c: Codec, tokens: seq<Token>, k: nat)
    requires k < |tokens|
  {
    c.newSuffix(tokens[k].text).BadSuffix? && forall j :: 0 <= j < k ==> !c.newSuffix(tokens[j].text).BadSuffix?
  }

  /** r is the call of is with the arguments read, or the blame for the first that does not read. */
  ghost predicate IsRead(c: Codec, tokens: seq<Token>, r: Built<Expr>) {
    match r
    case Built(e) => e.Is? && DomainsRead(c, tokens, Built(e.domains))
    case Faulty(span, fault) => DomainsRead(c, tokens, Faulty(span, fault))
  }

  ghost predicate SubRead(c: Codec, tokens: seq<Token>, r: Built<Expr>) {
    match r
    case Built(e) => e.Sub? && SuffixesRead(c, tokens, Built(e.suffixes))
    case Faulty(span, fault) => SuffixesRead(c, tokens, Faulty(span, fault))
  }

  lemma {:induction false} KeepDomainsReads(c: Codec, tokens: seq<Token>)
    ensures DomainsRead(c, tokens, KeepDomains(c, tokens))
  {
    if |tokens| > 0 {
      var n := |tokens| - 1;
      var init, before := tokens[..n], KeepDomains(c, tokens[..n]);
      KeepDomainsReads(c, init);
      if before.Faulty? {
        var k :| 0 <= k < |init| && UnreadDomainAt(c, init, k) && before.span == init[k].span;
        assert UnreadDomainAt(c, tokens, k);
      } else if c.newDomain(tokens[n].text).BadDomain? {
        assert forall j :: 0 <= j < n ==> Keeps(c.newDomain(init[j].text), before.value[j]);
        assert UnreadDomainAt(c, tokens, n);
      }
    }
  }

  lemma {:induction false} KeepSuffixesReads(c: Codec, tokens: seq<Token>)
    ensures SuffixesRead(c, tokens, KeepSuffixes(c, tokens))
  {
    if |tokens| == 0 {
      assert Places(c, tokens, [], []);
    } else {
      var n := |tokens| - 1;
      var init, before, last := tokens[..n], KeepSuffixes(c, tokens[..n]), c.newSuffix(tokens[n].text);
      KeepSuffixesReads(c, init);
      if before.Faulty? {
        var k :| 0 <= k < |init| && UnreadSuffixAt(c, init, k) && before.span == init[k].span;
        assert UnreadSuffixAt(c, tokens, k);
      } else {
        var places :| Places(c, init, before.value, places);
        PlacesStep(c, tokens, before.value, places);
        if last.BadSuffix? { assert UnreadSuffixAt(c, tokens, n); }
      }
    }
  }

  lemma PlacesStep(c: Codec, tokens: seq<Token>, ss: seq<Suffix>, places: seq<nat>)
    requires |tokens| > 0 && Places(c, tokens[..|tokens| - 1], ss, places)
    ensures var n, last := |tokens| - 1, c.newSuffix(tokens[|tokens| - 1].text);
      && (forall j :: 0 <= j < n ==> !c.newSuffix(tokens[j].text).BadSuffix?)
      && (last.GoodSuffix? ==> Places(c, tokens, ss + [last.suffix], places + [n]))
      && (last.WildcardSuffix? ==> Places(c, tokens, ss, places))
  {
    var n, last := |tokens| - 1, c.newSuffix(tokens[|tokens| - 1].text);
    var init := tokens[..n];
    forall j | 0 <= j < n ensures !c.newSuffix(tokens[j].text).BadSuffix? {
      assert init[j] == tokens[j];
      if j in places { var m :| 0 <= m < |places| && places[m] == j; }
    }
    if last.GoodSuffix? {
      var more := places + [n];
      forall k | 0 <= k < |tokens| && k !in more ensures c.newSuffix(tokens[k].text).WildcardSuffix? {
        assert n in more && forall p :: p in places ==> p in more;
        assert init[k] == tokens[k];
      }
    }
  }

  lemma {:induction false} DomainFaultStays(c: Codec, tokens: seq<Token>, i: nat)
    requires i <= |tokens| && KeepDomains(c, tokens[..i]).Faulty?
    ensures KeepDomains(c, tokens) == KeepDomains(c, tokens[..i])
    decreases |tokens| - i
  {
    if i < |tokens| {
      assert tokens[..i + 1][..i] == tokens[..i];
      DomainFaultStays(c, tokens, i + 1);
    } else {
      assert tokens[..i] == tokens;
    }
  }

  lemma {:induction false} SuffixFaultStays(c: Codec, tokens: seq<Token>, i: nat)
    requires i <= |tokens| && KeepSuffixes(c, tokens[..i]).Faulty?
    ensures KeepSuffixes(c, tokens) == KeepSuffixes(c, tokens[..i])
    decreases |tokens| - i
  {
    if i < |tokens| {
      assert tokens[..i + 1][..i] == tokens[..i];
      SuffixFaultStays(c, tokens, i + 1);
    } else {
      assert tokens[..i] == tokens;
    }
  }

  method BuildIsCall(c: Codec, tree: Tree) returns (r: Built<Expr>)
    requires tree.Op? && (tree.id == "is()" || (tree.id == "is(...)" && |tree.args| > 0))
    ensures r == Build(c, tree)
    ensures tree.id == "is()" ==> r == Built(Is([]))
    ensures tree.id == "is(...)" && FlattenList(tree.args[0]).Built? ==> IsRead(c, FlattenList(tree.args[0]).value, r)
  {
    if tree.id == "is()" { return Built(Is([])); }
    var list := FlattenList(tree.args[0]);
    if list.Faulty? { return Faulty(list.span, list.fault); }
    var tokens := list.value;
    KeepDomainsReads(c, tokens);
    hide DomainsRead;
    var domains: seq<Domain> := [];
    for i := 0 to |tokens|
      invariant KeepDomains(c, tokens[..i]) == Built(domains)
    {
      assert tokens[..i + 1][..i] == tokens[..i];
      match c.newDomain(tokens[i].text) {
        case GoodDomain(d) => domains := domains + [d];
        case TooFewLabels(d) => domains := domains + [d];
        case BadDomain =>
          DomainFaultStays(c, tokens, i + 1);
          return Faulty(tokens[i].span, InvalidDomain);
      }
    }
    assert tokens[..|tokens|] == tokens;
    r := Built(Is(domains));
  }

  method BuildSubCall(c: Codec, tree: Tree) returns (r: Built<Expr>)
    requires tree.Op? && (tree.id == "sub()" || (tree.id == "sub(...)" && |tree.args| > 0))
    ensures r == Build(c, tree)
    ensures tree.id == "sub()" ==> r == Built(Sub([]))
    ensures tree.id == "sub(...)" && FlattenList(tree.args[0]).Built? ==> SubRead(c, FlattenList(tree.args[0]).value, r)
  {
    if tree.id == "sub()" { return Built(Sub([])); }
    var list := FlattenList(tree.args[0]);
    if list.Faulty? { return Faulty(list.span, list.fault); }
    var tokens := list.value;
    KeepSuffixesReads(c, tokens);
    hide SuffixesRead;
    var suffixes: seq<Suffix> := [];
    for i := 0 to |tokens|
      invariant KeepSuffixes(c, tokens[..i]) == Built(suffixes)
    {
      assert tokens[..i + 1][..i] == tokens[..i];
      match c.newSuffix(tokens[i].text) {
        case GoodSuffix(s) => suffixes := suffixes + [s];
        case WildcardSuffix =>
        case BadSuffix =>
          SuffixFaultStays(c, tokens, i + 1);
          return Faulty(tokens[i].span, InvalidDomain);
      }
    }
    assert tokens[..|tokens|] == tokens;
    r := Built(Sub(suffixes));
  }

  /** The parser builds only expressions whose arguments read back. */
  lemma {:induction false} BuildIsPrintable(c: Codec, tree: Tree)
    requires GoodCodec(c) && Build(c, tree).Built?
    ensures Printable(c, Build(c, tree).value)
  {
    hide GoodCodec, GoodDomainText, GoodSuffixText;
    if tree.Op? {
      if tree.id == "!" || tree.id == "(...)" {
        BuildIsPrintable(c, tree.args[0]);
      } else if tree.id == "&&" || tree.id == "||" {
        BuildIsPrintable(c, tree.args[0]);
        BuildIsPrintable(c, tree.args[1]);
      } else if tree.id == "is(...)" {
        DomainsArePrintable(c, FlattenList(tree.args[0]).value);
      } else if tree.id == "sub(...)" {
        SuffixesArePrintable(c, FlattenList(tree.args[0]).value);
      }
    }
  }

  lemma {:induction false} DomainsArePrintable(c: Codec, tokens: seq<Token>)
    requires GoodCodec(c) && KeepDomains(c, tokens).Built?
    ensures Printable(c, Is(KeepDomains(c, tokens).value))
  {
    if |tokens| > 0 {
      DomainsArePrintable(c, tokens[..|tokens| - 1]);
      var text := tokens[|tokens| - 1].text;
      assert Keeps(c.newDomain(text), c.newDomain(text).domain);
    }
  }

  lemma {:induction false} SuffixesArePrintable(c: Codec, tokens: seq<Token>)
    requires GoodCodec(c) && KeepSuffixes(c, tokens).Built?
    ensures Printable(c, Sub(KeepSuffixes(c, tokens).value))
  {
    if |tokens| > 0 {
      SuffixesArePrintable(c, tokens[..|tokens| - 1]);
    }
  }

  // ---------------------------------------------------------------------------
  // The left-reassociated form

  /** left op right, with right's chain of op hung below. */
  function Graft(op: Operator, left: Expr, right: Expr): Expr {
    if IsChain(right, op) then Binary(op, Graft(op, left, right.left), right.right) else Binary(op, left, right)
  }

  /** Every chain leaning left. */
  function Reassoc(e: Expr): Expr {
    match e
    case Not(x) => Not(Reassoc(x))
    case Binary(op, l, r) => Graft(op, Reassoc(l), Reassoc(r))
    case _ => e
  }

  lemma {:induction false} GraftAssociates(op: Operator, a: Expr, b: Expr, d: Expr)
    ensures Graft(op, Graft(op, a, b), d) == Graft(op, a, Graft(op, b, d))
  {
    if IsChain(d, op) { GraftAssociates(op, a, b, d.left); }
  }

  lemma {:induction false} GraftMeaning(op: Operator, l: Expr, r: Expr, name: string)
    ensures Evaluate(Graft(op, l, r), name) == Evaluate(Binary(op, l, r), name)
  {
    if IsChain(r, op) { GraftMeaning(op, l, r.left, name); }
  }

  /** Reassociating keeps the meaning. */
  lemma {:induction false} ReassocMeaning(e: Expr, name: string)
    ensures Evaluate(Reassoc(e), name) == Evaluate(e, name)
  {
    match e
    case Not(x) => ReassocMeaning(x, name);
    case Binary(op, l, r) =>
      ReassocMeaning(l, name);
      ReassocMeaning(r, name);
      GraftMeaning(op, Reassoc(l), Reassoc(r), name);
    case _ =>
  }

  lemma ReassocRoot(e: Expr)
    ensures Reassoc(e).Binary? == e.Binary? && (e.Binary? ==> Reassoc(e).op == e.op)
    ensures Precedence(Reassoc(e)) == Precedence(e)
  {
  }

  /** No chain has a chain of its own operator on the right. */
  predicate LeansLeft(e: Expr) {
    match e
    case Not(x) => LeansLeft(x)
    case Binary(op, l, r) => LeansLeft(l) && LeansLeft(r) && !IsChain(r, op)
    case _ => true
  }

  lemma {:induction false} GraftLeansLeft(op: Operator, l: Expr, r: Expr)
    requires LeansLeft(l) && LeansLeft(r)
    ensures LeansLeft(Graft(op, l, r))
  {
    if IsChain(r, op) { GraftLeansLeft(op, l, r.left); }
  }

  /** The reassociated form leans left, and expressions that lean left are their own. */
  lemma {:induction false} ReassocLeansLeft(e: Expr)
    ensures LeansLeft(Reassoc(e)) && (LeansLeft(e) <==> Reassoc(e) == e)
  {
    match e
    case Not(x) => ReassocLeansLeft(x);
    case Binary(op, l, r) =>
      ReassocLeansLeft(l);
      ReassocLeansLeft(r);
      GraftLeansLeft(op, Reassoc(l), Reassoc(r));
    case _ =>
  }

  lemma {:induction false} GraftText(c: Codec, op: Operator, l: Expr, r: Expr)
    ensures Body(c, Graft(op, l, r)) == Body(c, Binary(op, l, r))
  {
    if IsChain(r, op) {
      GraftText(c, op, l, r.left);
      var p := OperatorPrecedence(op);
      var first, second, third := Show(c, l, p), Show(c, r.left, p), Show(c, r.right, p);
      var sign := " " + (OperatorText(op) + " ");
      assert Show(c, Graft(op, l, r.left), p) == first + sign + second;
      assert Show(c, r, p) == second + sign + third;
      assert Body(c, Graft(op, l, r)) == first + sign + second + sign + third;
      assert Body(c, Binary(op, l, r)) == first + sign + second + sign + third;
    }
  }

  /** Reassociating does not change the text: printing is stable from the first print on. */
  lemma {:induction false} ReassocText(c: Codec, e: Expr, context: nat)
    ensures Show(c, Reassoc(e), context) == Show(c, e, context)
  {
    ReassocRoot(e);
    match e
    case Not(x) => ReassocText(c, x, 3);
    case Binary(op, l, r) =>
      var p := OperatorPrecedence(op);
      ReassocText(c, l, p);
      ReassocText(c, r, p);
      GraftText(c, op, Reassoc(l), Reassoc(r));
    case _ =>
  }
}
