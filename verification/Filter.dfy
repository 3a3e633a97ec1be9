/** Detection filters: evaluation, canonical text, and the parser that reads it back. */
module Filter {
  import opened Results
  import opened Addresses
  import opened Prefixes
  import opened Tokenizer
  import opened Grammar
  import opened PrattSpec
  import opened Reading
  import opened Operators

  /** A detected address with its prefix length. */
  type RawEntry = Cidr

  datatype Expr =
    | KeepAll
    | AddrIn(prefix: Cidr)
    | Not(inner: Expr)
    | And(left: Expr, right: Expr)
    | Or(left: Expr, right: Expr)

  predicate Evaluate(e: Expr, entry: RawEntry) {
    match e
    case KeepAll => true
    case AddrIn(p) => Contains(p, entry.addr)
    case Not(inner) => !Evaluate(inner, entry)
    case And(l, r) => Evaluate(l, entry) && Evaluate(r, entry)
    case Or(l, r) => Evaluate(l, entry) || Evaluate(r, entry)
  }

  /** a is an unzoned address of the prefix's family with the prefix's first bits. */
  predicate SharesPrefix(p: Cidr, a: Addr) {
    && IsValid(a) && (a.V4? <==> p.addr.V4?) && (a.V6? ==> a.zone == "")
    && forall k :: 0 <= k < p.bits ==> AddrBit(a, k) == AddrBit(p.addr, k)
  }

  ghost const ADDRESSES: iset<Addr> := iset a: Addr | IsValid(a)

  /** The addresses a filter selects. */
  ghost function Selected(e: Expr): iset<Addr> {
    match e
    case KeepAll => ADDRESSES
    case AddrIn(p) => iset a: Addr | SharesPrefix(p, a)
    case Not(inner) => ADDRESSES - Selected(inner)
    case And(l, r) => Selected(l) * Selected(r)
    case Or(l, r) => Selected(l) + Selected(r)
  }

  /** A filter holds of an entry when it selects the entry's address, whatever the entry's prefix length. */
  lemma {:induction false} EvaluateSelects(e: Expr, entry: RawEntry)
    ensures Evaluate(e, entry) <==> entry.addr in Selected(e)
  {
    match e
    case KeepAll =>
    case AddrIn(p) =>
      ContainsBits(p, entry.addr);
      hide Contains, AddrBit;
    case Not(inner) => EvaluateSelects(inner, entry);
    case And(l, r) =>
      EvaluateSelects(l, entry);
      EvaluateSelects(r, entry);
    case Or(l, r) =>
      EvaluateSelects(l, entry);
      EvaluateSelects(r, entry);
  }

  /** The entries of es the filter keeps (or drops), in order. */
  function Kept(e: Expr, es: seq<RawEntry>, keep: bool): seq<RawEntry> {
    if |es| == 0 then []
    else
      var rest, last := Kept(e, es[..|es| - 1], keep), es[|es| - 1];
      if Evaluate(e, last) == keep then rest + [last] else rest
  }

  /** Keeping and dropping split the entries. */
  lemma {:induction false} KeptAndDropped(e: Expr, es: seq<RawEntry>)
    ensures multiset(Kept(e, es, true)) + multiset(Kept(e, es, false)) == multiset(es)
  {
    hide Evaluate;
    if |es| > 0 {
      KeptAndDropped(e, es[..|es| - 1]);
      assert es == es[..|es| - 1] + [es[|es| - 1]];
    }
  }

  method Partition(e: Expr, es: seq<RawEntry>) returns (kept: seq<RawEntry>, dropped: seq<RawEntry>)
    ensures kept == Kept(e, es, true) && dropped == Kept(e, es, false)
    ensures (forall x :: x in kept ==> Evaluate(e, x)) && (forall x :: x in dropped ==> !Evaluate(e, x))
    ensures (forall x :: x in kept ==> x.addr in Selected(e)) && (forall x :: x in dropped ==> x.addr !in Selected(e))
    ensures multiset(kept) + multiset(dropped) == multiset(es)
  {
    hide Evaluate, Selected;
    kept, dropped := [], [];
    for i := 0 to |es|
      invariant kept == Kept(e, es[..i], true) && dropped == Kept(e, es[..i], false)
      invariant (forall x :: x in kept ==> Evaluate(e, x)) && (forall x :: x in dropped ==> !Evaluate(e, x))
    {
      assert es[..i + 1][..i] == es[..i];
      if Evaluate(e, es[i]) {
        kept := kept + [es[i]];
      } else {
        dropped := dropped + [es[i]];
      }
    }
    assert es[..|es|] == es;
    forall x: RawEntry ensures Evaluate(e, x) <==> x.addr in Selected(e) { EvaluateSelects(e, x); }
    KeptAndDropped(e, es);
  }

  // ---------------------------------------------------------------------------
  // Text

  /** `netip` parsing and printing of prefixes and addresses. */
  datatype Codec = Codec(show: Cidr -> string, parse: string -> Option<Cidr>, parseAddr: string -> Option<Addr>)

  predicate PrefixChar(c: char) {
    '0' <= c <= '9' || 'a' <= c <= 'f' || c == '.' || c == ':' || c == '/'
  }

  predicate PrefixText(s: string) {
    s != "" && forall i :: 0 <= i < |s| ==> PrefixChar(s[i])
  }

  /** Printed prefixes use prefix characters and read back. */
  ghost predicate GoodCodec(c: Codec) {
    forall p: Cidr :: PrefixText(c.show(p)) && c.parse(c.show(p)) == Some(p)
  }

  /** The canonical text of a filter. */
  function String(c: Codec, e: Expr): string {
    match e
    case KeepAll => "keep-all"
    case AddrIn(p) => "addr-in" + ("(" + (c.show(p) + ")"))
    case Not(inner) => "!" + ("(" + (String(c, inner) + ")"))
    case And(l, r) => BinaryString(String(c, l), "&&", String(c, r))
    case Or(l, r) => BinaryString(String(c, l), "||", String(c, r))
  }

  function BinaryString(left: string, op: string, right: string): string {
    "(" + (left + (" " + (op + (" " + (right + ")")))))
  }

  // ---------------------------------------------------------------------------
  // The grammar

  const KEEP_ALL_RULE := Rule("keep-all", [Keyword("keep-all")], false, false)
  const ADDR_IN_RULE := Rule("addr-in(...)", [Keyword("addr-in"), Symbol("("), Hole(0), Symbol(")")], false, false)
  const NOT_RULE := Rule("!", [Symbol("!"), Hole(30)], false, false)
  const GROUP_RULE := Rule("(...)", [Symbol("("), Hole(0), Symbol(")")], false, false)
  const AND_RULE := Rule("&&", [Hole(20), Symbol("&&"), Hole(21)], false, false)
  const OR_RULE := Rule("||", [Hole(10), Symbol("||"), Hole(11)], false, false)

  const RULES: seq<Rule> := [KEEP_ALL_RULE, ADDR_IN_RULE, NOT_RULE, GROUP_RULE, AND_RULE, OR_RULE]

  const TABLE := OPERATOR_TABLE

  const GRAMMAR := Pratt(RULES, TABLE)

  /** A character that can occur in a keyword or a prefix. */
  predicate WordChar(c: char) {
    PrefixChar(c) || 'a' <= c <= 'z' || c == '-'
  }

  predicate Word(s: string) {
    s != "" && forall i :: 0 <= i < |s| ==> WordChar(s[i])
  }

  lemma WordsStandAlone(text: string)
    requires Word(text)
    ensures Standalone(TABLE, A(text))
  {
    forall i | 0 <= i < |text| ensures !IsSpace(text[i]) && text[i] !in TABLE.leading {
      assert WordChar(text[i]);
    }
  }

  lemma KeywordsAreWords()
    ensures Word("keep-all") && Word("addr-in")
  {
  }

  const NULL_FORMS := [KEEP_ALL_RULE, ADDR_IN_RULE] + [NOT_RULE, GROUP_RULE]

  lemma NullLookup(key: TokenKey)
    ensures NullRules(RULES, key) ==
      if key == A("keep-all") then [KEEP_ALL_RULE]
      else if key == A("addr-in") then [ADDR_IN_RULE]
      else if key == S("!") then [NOT_RULE]
      else if key == S("(") then [GROUP_RULE]
      else []
  {
    hide NullRules;
    NullSections(key);
    WordLookup(key);
    SignLookup(key);
  }

  lemma NullSections(key: TokenKey)
    ensures NullRules(RULES, key) ==
      NullRules([KEEP_ALL_RULE, ADDR_IN_RULE], key) + NullRules([NOT_RULE, GROUP_RULE], key)
  {
    NoNullRules([AND_RULE, OR_RULE], key);
    hide NullRules;
    NullConcat([KEEP_ALL_RULE, ADDR_IN_RULE], [NOT_RULE, GROUP_RULE], key);
    NullConcat(NULL_FORMS, [AND_RULE, OR_RULE], key);
    assert NULL_FORMS + [AND_RULE, OR_RULE] == RULES;
  }

  lemma WordLookup(key: TokenKey)
    ensures NullRules([KEEP_ALL_RULE, ADDR_IN_RULE], key) ==
      if key == A("keep-all") then [KEEP_ALL_RULE] else if key == A("addr-in") then [ADDR_IN_RULE] else []
  {
    hide NullRules;
    NullPair(KEEP_ALL_RULE, ADDR_IN_RULE, key);
  }

  lemma SignLookup(key: TokenKey)
    ensures NullRules([NOT_RULE, GROUP_RULE], key) ==
      if key == S("!") then [NOT_RULE] else if key == S("(") then [GROUP_RULE] else []
  {
    hide NullRules;
    NullPair(NOT_RULE, GROUP_RULE, key);
  }

  /** No null form is a left or implicit form. */
  lemma LeftLookup(key: TokenKey)
    ensures LeftRules(RULES, key) == if key == S("&&") then [AND_RULE] else if key == S("||") then [OR_RULE] else []
    ensures ImplicitRules(RULES) == []
  {
    NoLeftAmongNulls(NULL_FORMS, key);
    hide LeftRules, ImplicitRules;
    LeftPair(AND_RULE, OR_RULE, key);
    LeftConcat(NULL_FORMS, [AND_RULE, OR_RULE], key);
    ImplicitConcat(NULL_FORMS, [AND_RULE, OR_RULE]);
    assert NULL_FORMS + [AND_RULE, OR_RULE] == RULES;
  }

  /** NewPratt accepts the grammar: the keywords are atoms and the table holds the declared symbols. */
  lemma GrammarValid()
    ensures Valid(GRAMMAR)
  {
    hide OneAtom, Lex, ValidTable, HasSymbol, ValidRule, NoSpace, IsSpace;
    OperatorsValid(TABLE);
    KeywordReads("keep-all");
    KeywordReads("addr-in");
    forall s: string ensures s in TABLE.symbols <==> HasSymbol(RULES, s) { SymbolDeclared(s); }
    RulesValid();
  }

  lemma LiteralsValid()
    ensures ValidLiteral("keep-all") && ValidLiteral("addr-in")
    ensures ValidLiteral("&&") && ValidLiteral("||") && ValidLiteral("!") && ValidLiteral("(") && ValidLiteral(")")
  {
    WordsStandAlone("keep-all");
    WordsStandAlone("addr-in");
  }

  lemma RulesValid()
    ensures forall i :: 0 <= i < |RULES| ==> ValidRule(RULES[i])
  {
    LiteralsValid();
    hide ValidLiteral;
    assert ValidRule(KEEP_ALL_RULE) && ValidRule(ADDR_IN_RULE) && ValidRule(NOT_RULE) && ValidRule(GROUP_RULE);
    assert ValidRule(AND_RULE) && ValidRule(OR_RULE);
  }

  lemma KeywordReads(text: string)
    requires text == "keep-all" || text == "addr-in"
    ensures OneAtom(TABLE, text)
  {
    OperatorsValid(TABLE);
    KeywordsAreWords();
    WordsStandAlone(text);
    hide *;
    KeywordIsAtom(TABLE, text);
  }

  lemma SymbolDeclared(s: string)
    ensures s in TABLE.symbols <==> HasSymbol(RULES, s)
  {
    SymbolCases(TABLE, s);
    assert RULES[4].pattern[1] == Symbol("&&");
    assert RULES[5].pattern[1] == Symbol("||");
    assert RULES[2].pattern[0] == Symbol("!");
    assert RULES[3].pattern[0] == Symbol("(");
    assert RULES[3].pattern[2] == Symbol(")");
  }

  // ---------------------------------------------------------------------------
  // Building expressions from trees

  datatype Fault =
    NotFilter | KeepAllNotTopLevel | BareAddr(addr: Addr) | WrongFamily(prefix: Cidr) | BadPrefix(text: string)

  datatype Built = Built(e: Expr) | Faulty(fault: Fault)

  function BuildAddrIn(c: Codec, tree: Tree, family: Family): Built {
    if !tree.Atom? then Faulty(NotFilter)
    else
      var text := tree.token.text;
      match c.parse(text)
      case None =>
        (match c.parseAddr(text)
         case Some(addr) => Faulty(BareAddr(addr))
         case None => Faulty(BadPrefix(text)))
      case Some(p) => if p.addr.V4? != (family == IP4) then Faulty(WrongFamily(p)) else Built(AddrIn(p))
  }

  function Build(c: Codec, tree: Tree, family: Family, topLevel: bool): Built {
    if !tree.Op? then Faulty(NotFilter)
    else if tree.id == "keep-all" then if topLevel then Built(KeepAll) else Faulty(KeepAllNotTopLevel)
    else if tree.id == "addr-in(...)" && |tree.args| > 0 then BuildAddrIn(c, tree.args[0], family)
    else if tree.id == "!" && |tree.args| > 0 then
      var inner := Build(c, tree.args[0], family, false);
      if inner.Faulty? then inner else Built(Not(inner.e))
    else if tree.id == "(...)" && |tree.args| > 0 then Build(c, tree.args[0], family, false)
    else if (tree.id == "&&" || tree.id == "||") && |tree.args| > 1 then
      var l := Build(c, tree.args[0], family, false);
      if l.Faulty? then l
      else
        var r := Build(c, tree.args[1], family, false);
        if r.Faulty? then r else Built(if tree.id == "||" then Or(l.e, r.e) else And(l.e, r.e))
    else Faulty(NotFilter)
  }

  datatype FilterResult = Accepted(e: Expr) | Rejected(fault: Fault) | Malformed(error: ParseError)

  function ParseFilter(c: Codec, family: Family, input: string): FilterResult {
    GrammarValid();
    match Parse(GRAMMAR, input)
    case Failure(error) => Malformed(error)
    case Success(tree) =>
      match Build(c, tree, family, true)
      case Built(e) => Accepted(e)
      case Faulty(fault) => Rejected(fault)
  }

  /** No keep-all occurs below the top, and every prefix is of the family. */
  predicate Proper(e: Expr, family: Family) {
    match e
    case KeepAll => false
    case AddrIn(p) => p.addr.V4? == (family == IP4)
    case Not(inner) => Proper(inner, family)
    case And(l, r) => Proper(l, family) && Proper(r, family)
    case Or(l, r) => Proper(l, family) && Proper(r, family)
  }

  predicate ProperFilter(e: Expr, family: Family) {
    e.KeepAll? || Proper(e, family)
  }

  /** The parser builds only proper filters. */
  lemma {:induction false} BuildIsProper(c: Codec, tree: Tree, family: Family, topLevel: bool)
    requires Build(c, tree, family, topLevel).Built?
    ensures var e := Build(c, tree, family, topLevel).e;
      if topLevel then ProperFilter(e, family) else Proper(e, family)
  {
    if tree.id == "keep-all" || tree.id == "addr-in(...)" {
    } else {
      BuildIsProper(c, tree.args[0], family, false);
      if tree.id == "&&" || tree.id == "||" { BuildIsProper(c, tree.args[1], family, false); }
    }
  }

  // ---------------------------------------------------------------------------
  // Canonical text tokenizes to the expected keys

  function KeysOf(c: Codec, e: Expr): seq<TokenKey> {
    match e
    case KeepAll => [A("keep-all")]
    case AddrIn(p) => [A("addr-in")] + ([S("(")] + ([A(c.show(p))] + [S(")")]))
    case Not(inner) => [S("!")] + ([S("(")] + (KeysOf(c, inner) + [S(")")]))
    case And(l, r) => BinaryKeys(KeysOf(c, l), "&&", KeysOf(c, r))
    case Or(l, r) => BinaryKeys(KeysOf(c, l), "||", KeysOf(c, r))
  }

  function BinaryKeys(l: seq<TokenKey>, op: string, r: seq<TokenKey>): seq<TokenKey> {
    [S("(")] + (l + ([S(op)] + (r + [S(")")])))
  }

  lemma ReadsWord(text: string, rest: string)
    requires Word(text) && Delimited(TABLE, rest)
    ensures Reads(TABLE, text, [A(text)], rest)
  {
    OperatorsValid(TABLE);
    WordsStandAlone(text);
    hide *;
    ReadsAtom(TABLE, text, rest);
  }

  lemma ShownWords(c: Codec)
    requires GoodCodec(c)
    ensures forall p: Cidr :: Word(c.show(p))
  {
    forall p: Cidr ensures Word(c.show(p)) {
      var s := c.show(p);
      assert PrefixText(s);
      assert forall i :: 0 <= i < |s| ==> WordChar(s[i]);
    }
  }

  lemma {:induction false} StringReads(c: Codec, e: Expr, rest: string)
    requires GoodCodec(c) && Delimited(TABLE, rest)
    ensures Reads(TABLE, String(c, e), KeysOf(c, e), rest)
    decreases e
  {
    KeywordsAreWords();
    assert forall p: Cidr :: Word(c.show(p)) by { ShownWords(c); }
    hide Reads, Word, GoodCodec;
    match e
    case KeepAll => ReadsWord("keep-all", rest);
    case AddrIn(p) =>
      var text := c.show(p);
      ReadsWord(text, ")" + rest);
      EnclosedReads(TABLE, text, [A(text)], rest);
      ReadsWord("addr-in", ("(" + (text + ")")) + rest);
      ReadsConcat(TABLE, "addr-in", [A("addr-in")], "(" + (text + ")"), [S("(")] + ([A(text)] + [S(")")]), rest);
    case Not(inner) =>
      var text, keys := String(c, inner), KeysOf(c, inner);
      StringReads(c, inner, ")" + rest);
      EnclosedReads(TABLE, text, keys, rest);
      NegatedReads(TABLE, "(" + (text + ")"), [S("(")] + (keys + [S(")")]), rest);
    case And(l, r) =>
      StringReads(c, r, ")" + rest);
      assert IsSpace(' ');
      StringReads(c, l, (" " + ("&&" + (" " + (String(c, r) + ")")))) + rest);
      BinaryReads(String(c, l), KeysOf(c, l), "&&", String(c, r), KeysOf(c, r), rest);
    case Or(l, r) =>
      StringReads(c, r, ")" + rest);
      assert IsSpace(' ');
      StringReads(c, l, (" " + ("||" + (" " + (String(c, r) + ")")))) + rest);
      BinaryReads(String(c, l), KeysOf(c, l), "||", String(c, r), KeysOf(c, r), rest);
  }

  lemma BinaryReads(l: string, kl: seq<TokenKey>, op: string, r: string, kr: seq<TokenKey>, rest: string)
    requires op == "&&" || op == "||"
    requires Reads(TABLE, r, kr, ")" + rest)
    requires Reads(TABLE, l, kl, (" " + (op + (" " + (r + ")")))) + rest)
    ensures Reads(TABLE, BinaryString(l, op, r), BinaryKeys(kl, op, kr), rest)
  {
    hide Reads;
    SignReads(TABLE, ")", rest);
    ReadsConcat(TABLE, r, kr, ")", [S(")")], rest);
    InfixReads(TABLE, l, kl, op, r + ")", kr + [S(")")], rest);
    SignReads(TABLE, "(", (l + (" " + (op + (" " + (r + ")"))))) + rest);
    ReadsConcat(TABLE, "(", [S("(")], l + (" " + (op + (" " + (r + ")")))), kl + ([S(op)] + (kr + [S(")")])), rest);
  }

  // ---------------------------------------------------------------------------
  // The expected keys parse and build back to the expression

  /** After an operand of !, && or || in canonical text. */
  predicate Stops(key: TokenKey, minBindingPower: int) {
    key == S(")") || key.kind.EOFToken? || (minBindingPower > 20 && (key == S("&&") || key == S("||")))
  }

  lemma StopSelects(token: Token, minBindingPower: int)
    requires Stops(KeyForToken(token), minBindingPower)
    ensures SelectLeftForms(GRAMMAR, token, minBindingPower) == []
  {
    LeftLookup(KeyForToken(token));
    NullLookup(KeyForToken(token));
    EligibleOne(AND_RULE, minBindingPower);
    EligibleOne(OR_RULE, minBindingPower);
    hide LeftRules, NullRules, ImplicitRules;
  }

  lemma OperatorSelects(token: Token, op: string)
    requires KeyForToken(token) == S(op) && (op == "&&" || op == "||")
    ensures SelectLeftForms(GRAMMAR, token, 0) == [if op == "&&" then AND_RULE else OR_RULE]
  {
    LeftLookup(KeyForToken(token));
    EligibleOne(AND_RULE, 0);
    EligibleOne(OR_RULE, 0);
    hide LeftRules, NullRules, ImplicitRules;
  }

  /** An operand that parses as a null form and is then followed by a stop. */
  lemma OperandParses(toks: seq<Token>, i: nat, minBindingPower: int, tree: Tree, j: nat)
    requires Stream(toks) && i + 1 < |toks| && ParseNull(GRAMMAR, toks, i + 1, toks[i]) == Ok(tree, j) && j < |toks|
    requires Stops(KeyForToken(toks[j]), minBindingPower)
    ensures ParseExpression(GRAMMAR, toks, i, minBindingPower) == Ok(tree, j)
  {
    ExpressionIsLoop(GRAMMAR, toks, i, minBindingPower, tree, j);
    StopSelects(toks[j], minBindingPower);
    LoopStops(GRAMMAR, toks, j, minBindingPower, tree);
  }

  /** "(" operand ")" is a null form when the operand is an expression. */
  lemma GroupParses(toks: seq<Token>, i: nat, tree: Tree, j: nat) returns (group: Tree)
    requires Stream(toks) && i + 1 < |toks| && KeyForToken(toks[i]) == S("(")
    requires ParseExpression(GRAMMAR, toks, i + 1, 0) == Ok(tree, j) && j < |toks| && KeyForToken(toks[j]) == S(")")
    ensures j + 1 < |toks| && ParseNull(GRAMMAR, toks, i + 1, toks[i]) == Ok(group, j + 1)
    ensures group.Op? && group.id == "(...)" && group.args == [tree]
  {
    NullLookup(S("("));
    hide ParseExpression, NullRules, ParseTail, ParseNull;
    group := GroupTail(GRAMMAR, toks, i, GROUP_RULE, tree, j);
    NullFirst(GRAMMAR, toks, i + 1, toks[i], group, j + 1);
  }

  predicate IsKeyword(text: string) { text == "keep-all" || text == "addr-in" }

  lemma PrefixIsNoKeyword(text: string)
    requires PrefixText(text)
    ensures !IsKeyword(text)
  {
    assert !PrefixChar("keep-all"[0]) && !PrefixChar("addr-in"[3]);
  }

  lemma AtomParses(toks: seq<Token>, i: nat)
    requires Stream(toks) && i + 1 < |toks| && toks[i].kind.AtomToken? && !IsKeyword(toks[i].text)
    ensures ParseNull(GRAMMAR, toks, i + 1, toks[i]) == Ok(Atom(toks[i]), i + 1)
  {
    NullLookup(KeyForToken(toks[i]));
    NullAtom(GRAMMAR, toks, i + 1, toks[i]);
  }

  lemma KeepAllParses(toks: seq<Token>, i: nat) returns (tree: Tree)
    requires Stream(toks) && i + 1 < |toks| && KeyForToken(toks[i]) == A("keep-all")
    ensures ParseNull(GRAMMAR, toks, i + 1, toks[i]) == Ok(tree, i + 1)
    ensures tree.Op? && tree.id == "keep-all"
  {
    NullLookup(A("keep-all"));
    hide NullRules, ParseTail, ParseNull;
    tree := Op("keep-all", [toks[i]], [], toks[i].span);
    TailDone(GRAMMAR, toks, i + 1, KEEP_ALL_RULE, [toks[i]], [], toks[i].span);
    NullFirst(GRAMMAR, toks, i + 1, toks[i], tree, i + 1);
  }

  lemma AddrInParses(toks: seq<Token>, i: nat, text: string) returns (tree: Tree)
    requires Stream(toks) && !IsKeyword(text)
    requires At(toks, i, [A("addr-in")] + ([S("(")] + ([A(text)] + [S(")")])))
    ensures ParseNull(GRAMMAR, toks, i + 1, toks[i]) == Ok(tree, i + 4)
    ensures tree.Op? && tree.id == "addr-in(...)" && |tree.args| == 1
    ensures tree.args[0].Atom? && tree.args[0].token.text == text
  {
    var keys := [A("addr-in")] + ([S("(")] + ([A(text)] + [S(")")]));
    assert keys[0] == A("addr-in") && keys[1] == S("(") && keys[2] == A(text) && keys[3] == S(")");
    assert KeyForToken(toks[i + 0]) == keys[0] && KeyForToken(toks[i + 1]) == keys[1]
        && KeyForToken(toks[i + 2]) == keys[2] && KeyForToken(toks[i + 3]) == keys[3];
    NullLookup(A("addr-in"));
    AtomParses(toks, i + 2);
    OperandParses(toks, i + 2, 0, Atom(toks[i + 2]), i + 3);
    hide ParseExpression, NullRules, ParseTail, ParseNull, At;
    tree := CallTail(GRAMMAR, toks, i, ADDR_IN_RULE, Atom(toks[i + 2]), i + 3);
    NullFirst(GRAMMAR, toks, i + 1, toks[i], tree, i + 4);
  }

  lemma NotParses(toks: seq<Token>, i: nat, operand: Tree, j: nat) returns (tree: Tree)
    requires Stream(toks) && i + 2 < |toks| && KeyForToken(toks[i]) == S("!")
    requires ParseExpression(GRAMMAR, toks, i + 1, 30) == Ok(operand, j)
    ensures ParseNull(GRAMMAR, toks, i + 1, toks[i]) == Ok(tree, j)
    ensures tree.Op? && tree.id == "!" && tree.args == [operand]
  {
    NullLookup(S("!"));
    hide ParseExpression, NullRules, ParseTail, ParseNull;
    tree := PrefixTail(GRAMMAR, toks, i, NOT_RULE, operand, j);
    NullFirst(GRAMMAR, toks, i + 1, toks[i], tree, j);
  }

  /** left op right, followed by a stop. */
  lemma BinaryParses(toks: seq<Token>, i: nat, left: Tree, m: nat, op: string, right: Tree, j: nat) returns (tree: Tree)
    requires Stream(toks) && i + 1 < |toks| && ParseNull(GRAMMAR, toks, i + 1, toks[i]) == Ok(left, m) && m + 1 < |toks|
    requires (op == "&&" || op == "||") && KeyForToken(toks[m]) == S(op)
    requires ParseExpression(GRAMMAR, toks, m + 1, if op == "&&" then 21 else 11) == Ok(right, j) && j < |toks|
    requires KeyForToken(toks[j]) == S(")")
    ensures ParseExpression(GRAMMAR, toks, i, 0) == Ok(tree, j)
    ensures tree.Op? && tree.id == op && tree.args == [left, right]
  {
    hide SelectLeftForms, ParseTail, LeftLoop, ParseNull, ParseExpression;
    OperatorSelects(toks[m], op);
    StopSelects(toks[j], 0);
    ExpressionIsLoop(GRAMMAR, toks, i, 0, left, m);
    var form := if op == "&&" then AND_RULE else OR_RULE;
    tree := InfixTail(GRAMMAR, toks, form, left, m, right, j);
    LoopSteps(GRAMMAR, toks, m, 0, left, tree, j);
    LoopStops(GRAMMAR, toks, j, 0, tree);
  }

  /** Every printed filter is a null form that builds back to itself. */
  lemma {:induction false} KeysParse(c: Codec, family: Family, e: Expr, topLevel: bool, toks: seq<Token>, i: nat)
    returns (tree: Tree)
    requires GoodCodec(c) && (if topLevel then ProperFilter(e, family) else Proper(e, family))
    requires Stream(toks) && At(toks, i, KeysOf(c, e)) && Stops(KeyForToken(toks[i + |KeysOf(c, e)|]), 30)
    ensures ParseNull(GRAMMAR, toks, i + 1, toks[i]) == Ok(tree, i + |KeysOf(c, e)|)
    ensures Build(c, tree, family, topLevel) == Built(e)
    decreases e, 1
  {
    hide ParseNull, ParseExpression, At;
    match e
    case KeepAll =>
      AtFirst(toks, i, [A("keep-all")]);
      tree := KeepAllParses(toks, i);
    case AddrIn(p) =>
      PrefixIsNoKeyword(c.show(p));
      tree := AddrInParses(toks, i, c.show(p));
    case Not(inner) =>
      AtSplit(toks, i, [S("!")], [S("(")] + (KeysOf(c, inner) + [S(")")]));
      AtFirst(toks, i, [S("!")]);
      var group := GroupKeysParse(c, family, inner, toks, i + 1);
      tree := NotParses(toks, i, group, i + |KeysOf(c, e)|);
    case And(l, r) => tree := BinaryKeysParse(c, family, l, "&&", r, toks, i);
    case Or(l, r) => tree := BinaryKeysParse(c, family, l, "||", r, toks, i);
  }

  /** What follows an argument of "!(" in canonical text never extends it. */
  lemma GroupKeysParse(c: Codec, family: Family, inner: Expr, toks: seq<Token>, i: nat) returns (group: Tree)
    requires GoodCodec(c) && Proper(inner, family) && Stream(toks)
    requires At(toks, i, [S("(")] + (KeysOf(c, inner) + [S(")")]))
    requires var j := i + |KeysOf(c, inner)| + 2; Stops(KeyForToken(toks[j]), 30)
    ensures i + 1 < |toks| && ParseExpression(GRAMMAR, toks, i, 30) == Ok(group, i + |KeysOf(c, inner)| + 2)
    ensures Build(c, group, family, false) == Built(inner)
    decreases inner, 2
  {
    hide ParseNull, ParseExpression, At;
    var keys := KeysOf(c, inner);
    AtSplit(toks, i, [S("(")], keys + [S(")")]);
    AtSplit(toks, i + 1, keys, [S(")")]);
    AtFirst(toks, i, [S("(")]);
    AtFirst(toks, i + 1 + |keys|, [S(")")]);
    var tree := KeysParse(c, family, inner, false, toks, i + 1);
    OperandParses(toks, i + 1, 0, tree, i + 1 + |keys|);
    group := GroupParses(toks, i, tree, i + 1 + |keys|);
    OperandParses(toks, i, 30, group, i + |keys| + 2);
  }

  lemma BinaryAt(toks: seq<Token>, i: nat, kl: seq<TokenKey>, op: string, kr: seq<TokenKey>)
    requires At(toks, i, BinaryKeys(kl, op, kr))
    ensures |BinaryKeys(kl, op, kr)| == |kl| + |kr| + 3 && i + |kl| + |kr| + 3 < |toks|
    ensures KeyForToken(toks[i]) == S("(") && At(toks, i + 1, kl) && KeyForToken(toks[i + 1 + |kl|]) == S(op)
    ensures At(toks, i + 2 + |kl|, kr) && KeyForToken(toks[i + 2 + |kl| + |kr|]) == S(")")
  {
    assert BinaryKeys(kl, op, kr) == [S("(")] + (kl + ([S(op)] + (kr + [S(")")])));
    hide At;
    AtSplit(toks, i, [S("(")], kl + ([S(op)] + (kr + [S(")")])));
    AtSplit(toks, i + 1, kl, [S(op)] + (kr + [S(")")]));
    AtSplit(toks, i + 1 + |kl|, [S(op)], kr + [S(")")]);
    AtSplit(toks, i + 2 + |kl|, kr, [S(")")]);
    AtFirst(toks, i, [S("(")]);
    AtFirst(toks, i + 1 + |kl|, [S(op)]);
    AtFirst(toks, i + 2 + |kl| + |kr|, [S(")")]);
  }

  lemma BinaryKeysParse(c: Codec, family: Family, l: Expr, op: string, r: Expr, toks: seq<Token>, i: nat)
    returns (group: Tree)
    requires GoodCodec(c) && Proper(l, family) && Proper(r, family) && Stream(toks)
    requires (op == "&&" || op == "||") && At(toks, i, BinaryKeys(KeysOf(c, l), op, KeysOf(c, r)))
    ensures i + 1 < |toks|
    ensures ParseNull(GRAMMAR, toks, i + 1, toks[i]) == Ok(group, i + |BinaryKeys(KeysOf(c, l), op, KeysOf(c, r))|)
    ensures Build(c, group, family, false) == Built(if op == "||" then Or(l, r) else And(l, r))
    ensures Build(c, group, family, true) == Built(if op == "||" then Or(l, r) else And(l, r))
    decreases (if op == "||" then Or(l, r) else And(l, r)), 0
  {
    hide ParseNull, ParseExpression, At, GoodCodec, Proper, Build, KeysOf;
    var kl, kr := KeysOf(c, l), KeysOf(c, r);
    BinaryAt(toks, i, kl, op, kr);
    hide BinaryKeys;
    var m := i + 1 + |kl|;
    var j := m + 1 + |kr|;
    var left := KeysParse(c, family, l, false, toks, i + 1);
    var right := KeysParse(c, family, r, false, toks, m + 1);
    KeysNonEmpty(c, l);
    KeysNonEmpty(c, r);
    OperandParses(toks, m + 1, if op == "&&" then 21 else 11, right, j);
    var tree := BinaryParses(toks, i + 1, left, m, op, right, j);
    group := GroupParses(toks, i, tree, j);
    BinaryBuilds(c, family, tree, op, l, r);
    GroupBuilds(c, family, group, tree);
  }

  lemma GroupBuilds(c: Codec, family: Family, group: Tree, tree: Tree)
    requires group.Op? && group.id == "(...)" && group.args == [tree]
    ensures Build(c, group, family, true) == Build(c, group, family, false) == Build(c, tree, family, false)
  {
    assert group.args[0] == tree;
  }

  lemma BinaryBuilds(c: Codec, family: Family, tree: Tree, op: string, l: Expr, r: Expr)
    requires tree.Op? && tree.id == op && (op == "&&" || op == "||") && |tree.args| == 2
    requires Build(c, tree.args[0], family, false) == Built(l) && Build(c, tree.args[1], family, false) == Built(r)
    ensures Build(c, tree, family, false) == Built(if op == "||" then Or(l, r) else And(l, r))
  {
  }

  lemma TokensParse(c: Codec, family: Family, e: Expr, toks: seq<Token>) returns (tree: Tree)
    requires GoodCodec(c) && ProperFilter(e, family)
    requires Stream(toks) && |toks| == |KeysOf(c, e)| + 1 && At(toks, 0, KeysOf(c, e))
    ensures 0 < |toks| && ParseExpression(GRAMMAR, toks, 0, 0) == Ok(tree, |KeysOf(c, e)|)
    ensures Build(c, tree, family, true) == Built(e)
  {
    hide ParseNull, ParseExpression, At, GoodCodec, ProperFilter, Build, KeysOf;
    KeysNonEmpty(c, e);
    var n := |KeysOf(c, e)|;
    assert toks[n].kind.EOFToken?;
    tree := KeysParse(c, family, e, true, toks, 0);
    OperandParses(toks, 0, 0, tree, n);
  }

  /** A printed filter parses, to a tree that builds it. */
  lemma StringParses(c: Codec, family: Family, e: Expr) returns (tree: Tree)
    requires GoodCodec(c) && ProperFilter(e, family)
    ensures Valid(GRAMMAR) && Parse(GRAMMAR, String(c, e)) == Success(tree)
    ensures Build(c, tree, family, true) == Built(e)
  {
    assert Delimited(TABLE, "");
    hide Parse, ParseExpression, Valid, Reads, At, NoEOF, GoodCodec, ProperFilter, Build, String, KeysOf, Stream,
         Delimited;
    GrammarValid();
    StringReads(c, e, "");
    NoEOFKeys(c, e);
    KeysNonEmpty(c, e);
    var toks := TextParses(GRAMMAR, String(c, e), KeysOf(c, e));
    tree := TokensParse(c, family, e, toks);
  }

  /** Printing then tokenizing, parsing and building gives back the identical filter. */
  lemma FilterRoundTrip(c: Codec, family: Family, e: Expr)
    requires GoodCodec(c) && ProperFilter(e, family)
    ensures ParseFilter(c, family, String(c, e)) == Accepted(e)
  {
    hide Parse, Valid, GoodCodec, ProperFilter, Build, String;
    var tree := StringParses(c, family, e);
  }

  lemma {:induction false} NoEOFKeys(c: Codec, e: Expr)
    ensures NoEOF(KeysOf(c, e))
  {
    match e
    case KeepAll =>
    case AddrIn(_) =>
    case Not(inner) => NoEOFKeys(c, inner);
    case And(l, r) => NoEOFKeys(c, l); NoEOFKeys(c, r);
    case Or(l, r) => NoEOFKeys(c, l); NoEOFKeys(c, r);
  }

  lemma KeysNonEmpty(c: Codec, e: Expr)
    ensures |KeysOf(c, e)| > 0
  {
  }

  /** The canonical text stored with an accepted filter parses to the same filter. */
  lemma CanonicalTextIsFaithful(c: Codec, family: Family, input: string)
    requires GoodCodec(c) && ParseFilter(c, family, input).Accepted?
    ensures var e := ParseFilter(c, family, input).e;
      ParseFilter(c, family, String(c, e)) == Accepted(e)
  {
    GrammarValid();
    BuildIsProper(c, Parse(GRAMMAR, input).tree, family, true);
    FilterRoundTrip(c, family, ParseFilter(c, family, input).e);
  }
}
