/** How filter text is read when it is not fully parenthesized: segments of operands, and prefixes of operands. */
module FilterSyntax {
  import opened Addresses
  import opened Prefixes
  import opened Tokenizer
  import opened Grammar
  import opened PrattSpec
  import opened Reading
  import opened Operators
  import opened Filter

  /** What a filter is written with. */
  datatype Operand =
    | Everything                      // keep-all
    | InPrefix(text: string)          // addr-in(text)
    | Bang(operand: Operand)          // !operand
    | Group(formula: Formula)         // (formula)

  /** Operands joined by `&&`. */
  datatype Segment = Single(first: Operand) | AndThen(earlier: Segment, last: Operand)

  /** Segments joined by `||`. */
  datatype Formula = Only(segment: Segment) | OrElse(before: Formula, segment: Segment)

  function OperandsOf(s: Segment): seq<Operand> {
    match s
    case Single(o) => [o]
    case AndThen(earlier, o) => OperandsOf(earlier) + [o]
  }

  function SegmentsOf(f: Formula): seq<Segment> {
    match f
    case Only(s) => [s]
    case OrElse(before, s) => SegmentsOf(before) + [s]
  }

  // ---------------------------------------------------------------------------
  // Tokens and text

  function OperandKeys(o: Operand): (keys: seq<TokenKey>)
    ensures |keys| > 0
  {
    match o
    case Everything => [A("keep-all")]
    case InPrefix(text) => [A("addr-in")] + ([S("(")] + ([A(text)] + [S(")")]))
    case Bang(inner) => [S("!")] + OperandKeys(inner)
    case Group(f) => [S("(")] + (FormulaKeys(f) + [S(")")])
  }

  function SegmentKeys(s: Segment): (keys: seq<TokenKey>)
    ensures |keys| > 0
  {
    match s
    case Single(o) => OperandKeys(o)
    case AndThen(earlier, o) => SegmentKeys(earlier) + ([S("&&")] + OperandKeys(o))
  }

  function FormulaKeys(f: Formula): (keys: seq<TokenKey>)
    ensures |keys| > 0
  {
    match f
    case Only(s) => SegmentKeys(s)
    case OrElse(before, s) => FormulaKeys(before) + ([S("||")] + SegmentKeys(s))
  }

  function OperandText(o: Operand): string {
    match o
    case Everything => "keep-all"
    case InPrefix(text) => "addr-in" + ("(" + (text + ")"))
    case Bang(inner) => "!" + OperandText(inner)
    case Group(f) => "(" + (FormulaText(f) + ")")
  }

  function SegmentText(s: Segment): string {
    match s
    case Single(o) => OperandText(o)
    case AndThen(earlier, o) => SegmentText(earlier) + (" " + ("&&" + (" " + OperandText(o))))
  }

  function FormulaText(f: Formula): string {
    match f
    case Only(s) => SegmentText(s)
    case OrElse(before, s) => FormulaText(before) + (" " + ("||" + (" " + SegmentText(s))))
  }

  /** The arguments of addr-in and the keep-alls, from left to right. */
  datatype Leaf = Argument(text: string) | Sentinel

  function OperandLeaves(o: Operand): seq<Leaf> {
    match o
    case Everything => [Sentinel]
    case InPrefix(text) => [Argument(text)]
    case Bang(inner) => OperandLeaves(inner)
    case Group(f) => FormulaLeaves(f)
  }

  function SegmentLeaves(s: Segment): seq<Leaf> {
    match s
    case Single(o) => OperandLeaves(o)
    case AndThen(earlier, o) => SegmentLeaves(earlier) + OperandLeaves(o)
  }

  function FormulaLeaves(f: Formula): seq<Leaf> {
    match f
    case Only(s) => SegmentLeaves(s)
    case OrElse(before, s) => FormulaLeaves(before) + SegmentLeaves(s)
  }

  /** The arguments can stand where a prefix is expected. */
  ghost predicate Writable(leaves: seq<Leaf>) {
    forall l :: l in leaves && l.Argument? ==> Standalone(TABLE, A(l.text)) && !IsKeyword(l.text)
  }

  // ---------------------------------------------------------------------------
  // Parsing

  /** Nothing extends an operand of ! or && . */
  lemma TightSelects(token: Token, minBindingPower: int)
    requires minBindingPower > 20
    ensures SelectLeftForms(GRAMMAR, token, minBindingPower) == []
  {
    LeftLookup(KeyForToken(token));
    EligibleOne(AND_RULE, minBindingPower);
    EligibleOne(OR_RULE, minBindingPower);
    hide LeftRules, NullRules, ImplicitRules;
  }

  lemma AndSelects(token: Token, minBindingPower: int)
    requires KeyForToken(token) == S("&&") && minBindingPower <= 20
    ensures SelectLeftForms(GRAMMAR, token, minBindingPower) == [AND_RULE]
  {
    LeftLookup(KeyForToken(token));
    EligibleOne(AND_RULE, minBindingPower);
    hide LeftRules, NullRules, ImplicitRules;
  }

  lemma OrStops(token: Token, minBindingPower: int)
    requires KeyForToken(token) != S("&&") && minBindingPower > 10
    ensures SelectLeftForms(GRAMMAR, token, minBindingPower) == []
  {
    LeftLookup(KeyForToken(token));
    EligibleOne(OR_RULE, minBindingPower);
    hide LeftRules, NullRules, ImplicitRules;
  }

  /** An operand is read alone where only tighter forms would extend it. */
  lemma TightOperand(toks: seq<Token>, i: nat, minBindingPower: int, tree: Tree, j: nat)
    requires Stream(toks) && i + 1 < |toks| && ParseNull(GRAMMAR, toks, i + 1, toks[i]) == Ok(tree, j)
    requires minBindingPower > 20
    ensures ParseExpression(GRAMMAR, toks, i, minBindingPower) == Ok(tree, j)
  {
    hide ParseNull, ParseExpression, LeftLoop, SelectLeftForms;
    ExpressionIsLoop(GRAMMAR, toks, i, minBindingPower, tree, j);
    TightSelects(toks[j], minBindingPower);
    LoopStops(GRAMMAR, toks, j, minBindingPower, tree);
  }

  lemma InfixSteps(toks: seq<Token>, m: nat, minBindingPower: int, left: Tree, form: Rule, right: Tree, j: nat)
    returns (tree: Tree)
    requires Stream(toks) && m + 1 < |toks| && form in [AND_RULE, OR_RULE]
    requires SelectLeftForms(GRAMMAR, toks[m], minBindingPower) == [form] && KeyForToken(toks[m]) == S(form.id)
    requires ParseExpression(GRAMMAR, toks, m + 1, form.pattern[2].bindingPower) == Ok(right, j)
    ensures j < |toks| && LeftLoop(GRAMMAR, toks, m, minBindingPower, left) ==
      LeftLoop(GRAMMAR, toks, j, minBindingPower, tree)
    ensures tree.Op? && tree.id == form.id && tree.args == [left, right]
  {
    hide SelectLeftForms, ParseTail, LeftLoop, ParseExpression;
    tree := InfixTail(GRAMMAR, toks, form, left, m, right, j);
    LoopSteps(GRAMMAR, toks, m, minBindingPower, left, tree, j);
  }

  /** What the builder makes of an operand, a segment, a formula. */
  function OperandBuilt(c: Codec, family: Family, o: Operand): Built {
    match o
    case Everything => Faulty(KeepAllNotTopLevel)
    case InPrefix(text) => BuildAddrIn(c, Atom(Token(AtomToken, text, Span(0, 0))), family)
    case Bang(inner) =>
      var r := OperandBuilt(c, family, inner);
      if r.Faulty? then r else Built(Not(r.e))
    case Group(f) => FormulaBuilt(c, family, f)
  }

  function SegmentBuilt(c: Codec, family: Family, s: Segment): Built {
    match s
    case Single(o) => OperandBuilt(c, family, o)
    case AndThen(earlier, o) =>
      var l, r := SegmentBuilt(c, family, earlier), OperandBuilt(c, family, o);
      if l.Faulty? then l else if r.Faulty? then r else Built(And(l.e, r.e))
  }

  function FormulaBuilt(c: Codec, family: Family, f: Formula): Built {
    match f
    case Only(s) => SegmentBuilt(c, family, s)
    case OrElse(before, s) =>
      var l, r := FormulaBuilt(c, family, before), SegmentBuilt(c, family, s);
      if l.Faulty? then l else if r.Faulty? then r else Built(Or(l.e, r.e))
  }

  /** The tree builds as told, at the top too unless it is keep-all itself. */
  predicate Builds(c: Codec, family: Family, tree: Tree, b: Built, bare: bool) {
    && Build(c, tree, family, false) == b
    && (bare ==> Build(c, tree, family, true) == Built(KeepAll))
    && (!bare ==> Build(c, tree, family, true) == b)
  }

  lemma {:induction false} OperandRead(c: Codec, family: Family, o: Operand, toks: seq<Token>,
                                       i: nat) returns (tree: Tree)
    requires Stream(toks) && At(toks, i, OperandKeys(o)) && Writable(OperandLeaves(o))
    ensures i + 1 < |toks| && ParseNull(GRAMMAR, toks, i + 1, toks[i]) == Ok(tree, i + |OperandKeys(o)|)
    ensures Builds(c, family, tree, OperandBuilt(c, family, o), o.Everything?)
    decreases o, 0
  {
    hide ParseNull, ParseExpression, At, Writable;
    AtFirst(toks, i, OperandKeys(o));
    match o
    case Everything => tree := KeepAllParses(toks, i);
    case InPrefix(text) =>
      assert !IsKeyword(text) by { ArgumentWritable(text); }
      tree := AddrInParses(toks, i, text);
    case Bang(inner) =>
      AtSplit(toks, i, [S("!")], OperandKeys(inner));
      var operand := OperandRead(c, family, inner, toks, i + 1);
      TightOperand(toks, i + 1, 30, operand, i + 1 + |OperandKeys(inner)|);
      tree := NotParses(toks, i, operand, i + 1 + |OperandKeys(inner)|);
    case Group(f) => tree := GroupRead(c, family, f, toks, i);
  }

  lemma GroupRead(c: Codec, family: Family, f: Formula, toks: seq<Token>, i: nat) returns (tree: Tree)
    requires Stream(toks) && At(toks, i, OperandKeys(Group(f))) && Writable(FormulaLeaves(f))
    ensures i + 1 < |toks| && ParseNull(GRAMMAR, toks, i + 1, toks[i]) == Ok(tree, i + |OperandKeys(Group(f))|)
    ensures Builds(c, family, tree, FormulaBuilt(c, family, f), false)
    decreases f, 3
  {
    hide ParseNull, ParseExpression, LeftLoop, At, Writable, SelectLeftForms, FormulaBuilt;
    var keys := FormulaKeys(f);
    var j := i + 1 + |keys|;
    AtSplit(toks, i, [S("(")], keys + [S(")")]);
    AtSplit(toks, i + 1, keys, [S(")")]);
    AtFirst(toks, i, [S("(")]);
    AtFirst(toks, j, [S(")")]);
    var inner := FormulaRead(c, family, f, toks, i + 1);
    StopSelects(toks[j], 0);
    LoopStops(GRAMMAR, toks, j, 0, inner);
    tree := GroupParses(toks, i, inner, j);
    GroupBuilds(c, family, tree, inner);
  }

  lemma ArgumentWritable(text: string)
    requires Writable([Argument(text)])
    ensures Standalone(TABLE, A(text)) && !IsKeyword(text)
  {
    assert Argument(text) in [Argument(text)];
  }

  lemma WritableParts(a: seq<Leaf>, b: seq<Leaf>)
    requires Writable(a + b)
    ensures Writable(a) && Writable(b)
  {
    assert forall l :: l in a || l in b ==> l in a + b;
  }

  /** Operands are joined from the left while `&&` follows. */
  lemma {:induction false} SegmentRead(c: Codec, family: Family, s: Segment, toks: seq<Token>, i: nat,
                                       minBindingPower: int)
    returns (tree: Tree)
    requires Stream(toks) && At(toks, i, SegmentKeys(s)) && Writable(SegmentLeaves(s)) && minBindingPower <= 20
    ensures var j := i + |SegmentKeys(s)|;
      j < |toks| && ParseExpression(GRAMMAR, toks, i, minBindingPower) ==
        LeftLoop(GRAMMAR, toks, j, minBindingPower, tree)
    ensures Builds(c, family, tree, SegmentBuilt(c, family, s), s == Single(Everything))
    decreases s, 1
  {
    hide ParseNull, ParseExpression, LeftLoop, SelectLeftForms, At, Writable, OperandKeys;
    match s
    case Single(o) =>
      tree := OperandRead(c, family, o, toks, i);
      ExpressionIsLoop(GRAMMAR, toks, i, minBindingPower, tree, i + |OperandKeys(o)|);
    case AndThen(earlier, o) =>
      var m := i + |SegmentKeys(earlier)|;
      WritableParts(SegmentLeaves(earlier), OperandLeaves(o));
      AtSplit(toks, i, SegmentKeys(earlier), [S("&&")] + OperandKeys(o));
      AtSplit(toks, m, [S("&&")], OperandKeys(o));
      AtFirst(toks, m, [S("&&")]);
      var left := SegmentRead(c, family, earlier, toks, i, minBindingPower);
      var right := OperandRead(c, family, o, toks, m + 1);
      TightOperand(toks, m + 1, 21, right, m + 1 + |OperandKeys(o)|);
      AndSelects(toks[m], minBindingPower);
      tree := InfixSteps(toks, m, minBindingPower, left, AND_RULE, right, m + 1 + |OperandKeys(o)|);
  }

  /** Segments are joined from the left while `||` follows. */
  lemma {:induction false} FormulaRead(c: Codec, family: Family, f: Formula, toks: seq<Token>,
                                       i: nat) returns (tree: Tree)
    requires Stream(toks) && At(toks, i, FormulaKeys(f)) && Writable(FormulaLeaves(f))
    requires KeyForToken(toks[i + |FormulaKeys(f)|]) != S("&&")
    ensures var j := i + |FormulaKeys(f)|;
      ParseExpression(GRAMMAR, toks, i, 0) == LeftLoop(GRAMMAR, toks, j, 0, tree)
    ensures Builds(c, family, tree, FormulaBuilt(c, family, f), f == Only(Single(Everything)))
    decreases f, 2
  {
    hide ParseNull, ParseExpression, LeftLoop, SelectLeftForms, At, Writable, SegmentKeys;
    match f
    case Only(s) => tree := SegmentRead(c, family, s, toks, i, 0);
    case OrElse(before, s) =>
      var m := i + |FormulaKeys(before)|;
      var j := m + 1 + |SegmentKeys(s)|;
      WritableParts(FormulaLeaves(before), SegmentLeaves(s));
      AtSplit(toks, i, FormulaKeys(before), [S("||")] + SegmentKeys(s));
      AtSplit(toks, m, [S("||")], SegmentKeys(s));
      AtFirst(toks, m, [S("||")]);
      var left := FormulaRead(c, family, before, toks, i);
      var right := SegmentRead(c, family, s, toks, m + 1, 11);
      OrStops(toks[j], 11);
      LoopStops(GRAMMAR, toks, j, 11, right);
      OperatorSelects(toks[m], "||");
      tree := InfixSteps(toks, m, 0, left, OR_RULE, right, j);
  }

  // ---------------------------------------------------------------------------
  // Tokenizing

  lemma {:induction false} OperandReads(o: Operand, rest: string)
    requires Writable(OperandLeaves(o)) && Delimited(TABLE, rest)
    ensures Reads(TABLE, OperandText(o), OperandKeys(o), rest)
    decreases o, 0
  {
    hide Reads, Writable;
    match o
    case Everything =>
      KeywordsAreWords();
      ReadsWord("keep-all", rest);
    case InPrefix(text) =>
      KeywordsAreWords();
      ArgumentWritable(text);
      OperatorsValid(TABLE);
      ReadsAtom(TABLE, text, ")" + rest);
      EnclosedReads(TABLE, text, [A(text)], rest);
      ReadsWord("addr-in", ("(" + (text + ")")) + rest);
      ReadsConcat(TABLE, "addr-in", [A("addr-in")], "(" + (text + ")"), [S("(")] + ([A(text)] + [S(")")]), rest);
    case Bang(inner) =>
      OperandReads(inner, rest);
      NegatedReads(TABLE, OperandText(inner), OperandKeys(inner), rest);
    case Group(f) =>
      FormulaReads(f, ")" + rest);
      EnclosedReads(TABLE, FormulaText(f), FormulaKeys(f), rest);
  }

  lemma SpaceDelimits(rest: string)
    ensures Delimited(TABLE, " " + rest)
  {
    assert IsSpace(' ');
  }

  lemma {:induction false} SegmentReads(s: Segment, rest: string)
    requires Writable(SegmentLeaves(s)) && Delimited(TABLE, rest)
    ensures Reads(TABLE, SegmentText(s), SegmentKeys(s), rest)
    decreases s, 1
  {
    hide Reads, Writable, Delimited;
    match s
    case Single(o) => OperandReads(o, rest);
    case AndThen(earlier, o) =>
      WritableParts(SegmentLeaves(earlier), OperandLeaves(o));
      OperandReads(o, rest);
      var tail := "&&" + (" " + OperandText(o));
      SpaceDelimits(tail + rest);
      assert " " + (tail + rest) == (" " + tail) + rest;
      SegmentReads(earlier, (" " + tail) + rest);
      InfixReads(TABLE, SegmentText(earlier), SegmentKeys(earlier), "&&", OperandText(o), OperandKeys(o), rest);
  }

  lemma {:induction false} FormulaReads(f: Formula, rest: string)
    requires Writable(FormulaLeaves(f)) && Delimited(TABLE, rest)
    ensures Reads(TABLE, FormulaText(f), FormulaKeys(f), rest)
    decreases f, 2
  {
    hide Reads, Writable, Delimited;
    match f
    case Only(s) => SegmentReads(s, rest);
    case OrElse(before, s) =>
      WritableParts(FormulaLeaves(before), SegmentLeaves(s));
      SegmentReads(s, rest);
      var tail := "||" + (" " + SegmentText(s));
      SpaceDelimits(tail + rest);
      assert " " + (tail + rest) == (" " + tail) + rest;
      FormulaReads(before, (" " + tail) + rest);
      InfixReads(TABLE, FormulaText(before), FormulaKeys(before), "||", SegmentText(s), SegmentKeys(s), rest);
  }

  lemma {:induction false} NoEOFOperand(o: Operand)
    ensures NoEOF(OperandKeys(o))
    decreases o, 0
  {
    match o
    case Everything =>
    case InPrefix(_) =>
    case Bang(inner) => NoEOFOperand(inner);
    case Group(f) => NoEOFFormula(f);
  }

  lemma {:induction false} NoEOFSegment(s: Segment)
    ensures NoEOF(SegmentKeys(s))
    decreases s, 1
  {
    match s
    case Single(o) => NoEOFOperand(o);
    case AndThen(earlier, o) =>
      NoEOFSegment(earlier);
      NoEOFOperand(o);
  }

  lemma {:induction false} NoEOFFormula(f: Formula)
    ensures NoEOF(FormulaKeys(f))
    decreases f, 2
  {
    match f
    case Only(s) => NoEOFSegment(s);
    case OrElse(before, s) =>
      NoEOFFormula(before);
      NoEOFSegment(s);
  }

  // ---------------------------------------------------------------------------
  // What a formula means

  /** The argument reads as a prefix of the family. */
  predicate Good(c: Codec, family: Family, l: Leaf) {
    l.Argument? && c.parse(l.text).Some? && (family == IP4 <==> c.parse(l.text).value.addr.V4?)
  }

  /** Why a leaf is refused. */
  predicate Refused(c: Codec, l: Leaf, fault: Fault) {
    match l
    case Sentinel => fault == KeepAllNotTopLevel
    case Argument(text) =>
      if c.parse(text).Some? then fault == WrongFamily(c.parse(text).value)
      else if c.parseAddr(text).Some? then fault == BareAddr(c.parseAddr(text).value)
      else fault == BadPrefix(text)
  }

  /** Leaf k is the first that is not good, and is what the fault is about. */
  ghost predicate RefusedAt(c: Codec, family: Family, leaves: seq<Leaf>, k: nat, fault: Fault) {
    && k < |leaves| && (forall j :: 0 <= j < k ==> Good(c, family, leaves[j]))
    && !Good(c, family, leaves[k]) && Refused(c, leaves[k], fault)
  }

  predicate OperandHolds(c: Codec, o: Operand, a: Addr) {
    match o
    case Everything => true
    case InPrefix(text) => c.parse(text).Some? && Contains(c.parse(text).value, a)
    case Bang(inner) => !OperandHolds(c, inner, a)
    case Group(f) => FormulaHolds(c, f, a)
  }

  predicate SegmentHolds(c: Codec, s: Segment, a: Addr) {
    match s
    case Single(o) => OperandHolds(c, o, a)
    case AndThen(earlier, o) => SegmentHolds(c, earlier, a) && OperandHolds(c, o, a)
  }

  predicate FormulaHolds(c: Codec, f: Formula, a: Addr) {
    match f
    case Only(s) => SegmentHolds(c, s, a)
    case OrElse(before, s) => FormulaHolds(c, before, a) || SegmentHolds(c, s, a)
  }

  lemma {:induction false} SegmentHoldsAll(c: Codec, s: Segment, a: Addr)
    ensures SegmentHolds(c, s, a) <==> forall o :: o in OperandsOf(s) ==> OperandHolds(c, o, a)
  {
    if s.AndThen? {
      SegmentHoldsAll(c, s.earlier, a);
      LastOperand(s);
      assert s.last in OperandsOf(s);
    } else {
      assert SegmentHolds(c, s, a) == OperandHolds(c, s.first, a);
      assert forall o :: o in OperandsOf(s) <==> o == s.first;
      assert s.first in OperandsOf(s);
    }
  }

  lemma LastOperand(s: Segment)
    requires s.AndThen?
    ensures forall o :: o in OperandsOf(s) <==> o in OperandsOf(s.earlier) || o == s.last
  {
    assert OperandsOf(s) == OperandsOf(s.earlier) + [s.last];
    hide OperandsOf;
  }

  /** In some segment, all operands hold. */
  ghost predicate SomeSegmentHolds(c: Codec, f: Formula, a: Addr) {
    exists s :: s in SegmentsOf(f) && forall o :: o in OperandsOf(s) ==> OperandHolds(c, o, a)
  }

  lemma {:induction false} FormulaHoldsSome(c: Codec, f: Formula, a: Addr)
    ensures FormulaHolds(c, f, a) <==> SomeSegmentHolds(c, f, a)
  {
    SegmentHoldsAll(c, f.segment, a);
    assert f.segment in SegmentsOf(f);
    if f.OrElse? {
      FormulaHoldsSome(c, f.before, a);
      if SomeSegmentHolds(c, f.before, a) {
        var s :| s in SegmentsOf(f.before) && forall o :: o in OperandsOf(s) ==> OperandHolds(c, o, a);
        assert s in SegmentsOf(f);
      }
    }
  }

  /** b is an expression if all leaves are good, and the fault of the first that is not otherwise. */
  ghost predicate Decided(c: Codec, family: Family, leaves: seq<Leaf>, b: Built) {
    if b.Built? then forall l :: l in leaves ==> Good(c, family, l)
    else exists k :: RefusedAt(c, family, leaves, k, b.fault)
  }

  lemma DecidedPair(c: Codec, family: Family, a: seq<Leaf>, b: seq<Leaf>, l: Built, r: Built, both: Built)
    requires Decided(c, family, a, l) && Decided(c, family, b, r)
    requires if l.Faulty? then both == l else if r.Faulty? then both == r else both.Built?
    ensures Decided(c, family, a + b, both)
  {
    hide Good, Refused;
    var all := a + b;
    if l.Faulty? {
      var k :| RefusedAt(c, family, a, k, l.fault);
      assert forall j :: 0 <= j < |a| ==> all[j] == a[j];
      assert RefusedAt(c, family, all, k, l.fault);
    } else if r.Faulty? {
      var k :| RefusedAt(c, family, b, k, r.fault);
      assert forall j :: 0 <= j < |a| ==> all[j] == a[j] && a[j] in a;
      assert forall j :: 0 <= j < |b| ==> all[|a| + j] == b[j];
      forall j | 0 <= j < |a| + k ensures Good(c, family, all[j]) {
        if j >= |a| { assert all[j] == b[j - |a|]; }
      }
      assert RefusedAt(c, family, all, |a| + k, r.fault);
    }
  }

  lemma LeafDecided(c: Codec, family: Family, o: Operand)
    requires o.Everything? || o.InPrefix?
    ensures Decided(c, family, OperandLeaves(o), OperandBuilt(c, family, o))
  {
    var leaves, b := OperandLeaves(o), OperandBuilt(c, family, o);
    if b.Faulty? { assert RefusedAt(c, family, leaves, 0, b.fault); }
  }

  lemma {:induction false} OperandDecided(c: Codec, family: Family, o: Operand)
    ensures Decided(c, family, OperandLeaves(o), OperandBuilt(c, family, o))
    ensures OperandBuilt(c, family, o).Built? ==>
      forall entry: RawEntry :: Evaluate(OperandBuilt(c, family, o).e, entry) <==> OperandHolds(c, o, entry.addr)
    decreases o, 0
  {
    hide Contains;
    match o
    case Everything => LeafDecided(c, family, o);
    case InPrefix(_) => LeafDecided(c, family, o);
    case Bang(inner) => OperandDecided(c, family, inner);
    case Group(f) => FormulaDecided(c, family, f);
  }

  lemma {:induction false} SegmentDecided(c: Codec, family: Family, s: Segment)
    ensures Decided(c, family, SegmentLeaves(s), SegmentBuilt(c, family, s))
    ensures SegmentBuilt(c, family, s).Built? ==>
      forall entry: RawEntry :: Evaluate(SegmentBuilt(c, family, s).e, entry) <==> SegmentHolds(c, s, entry.addr)
    decreases s, 1
  {
    hide Decided;
    match s
    case Single(o) => OperandDecided(c, family, o);
    case AndThen(earlier, o) =>
      SegmentDecided(c, family, earlier);
      OperandDecided(c, family, o);
      DecidedPair(c, family, SegmentLeaves(earlier), OperandLeaves(o), SegmentBuilt(c, family, earlier),
                  OperandBuilt(c, family, o), SegmentBuilt(c, family, s));
  }

  lemma {:induction false} FormulaDecided(c: Codec, family: Family, f: Formula)
    ensures Decided(c, family, FormulaLeaves(f), FormulaBuilt(c, family, f))
    ensures FormulaBuilt(c, family, f).Built? ==>
      forall entry: RawEntry :: Evaluate(FormulaBuilt(c, family, f).e, entry) <==> FormulaHolds(c, f, entry.addr)
    decreases f, 2
  {
    hide Decided;
    match f
    case Only(s) => SegmentDecided(c, family, s);
    case OrElse(before, s) =>
      FormulaDecided(c, family, before);
      SegmentDecided(c, family, s);
      DecidedPair(c, family, FormulaLeaves(before), SegmentLeaves(s), FormulaBuilt(c, family, before),
                  SegmentBuilt(c, family, s), FormulaBuilt(c, family, f));
  }

  /** The verdict on a formula that is more than keep-all alone. */
  ghost predicate Verdict(c: Codec, family: Family, f: Formula, r: FilterResult) {
    var leaves := FormulaLeaves(f);
    && (r.Accepted? <==> forall l :: l in leaves ==> Good(c, family, l))
    && (r.Accepted? ==> forall entry: RawEntry :: Evaluate(r.e, entry) <==> SomeSegmentHolds(c, f, entry.addr))
    && (!r.Accepted? ==> r.Rejected? && exists k :: RefusedAt(c, family, leaves, k, r.fault))
  }

  const BARE := Only(Single(Everything))

  /** Filters mean what their segments say, however they are spaced: `&&` binds tighter than `||`, `!` tighter still. */
  lemma TokensDecide(c: Codec, family: Family, f: Formula, input: string, toks: seq<Token>)
    requires Lex(TABLE, input, 0) == Tokens(toks) && Writable(FormulaLeaves(f))
    requires |toks| == |FormulaKeys(f)| + 1 && At(toks, 0, FormulaKeys(f))
    ensures if f == BARE then ParseFilter(c, family, input) == Accepted(KeepAll)
            else Verdict(c, family, f, ParseFilter(c, family, input))
  {
    hide Build, FormulaBuilt, At, ParseExpression, LeftLoop, Valid, FormulaKeys, Writable, SelectLeftForms, Decided,
         Stream, ValidTable, Good;
    GrammarValid();
    TableOf(GRAMMAR);
    LexStream(TABLE, input);
    var n := |FormulaKeys(f)|;
    EndOfStream(toks);
    var tree := FormulaRead(c, family, f, toks, 0);
    StopSelects(toks[n], 0);
    LoopStops(GRAMMAR, toks, n, 0, tree);
    WholeParses(input, toks, tree);
    FormulaDecided(c, family, f);
    if f != BARE { BuiltVerdict(c, family, f, ParseFilter(c, family, input)); }
  }

  lemma EndOfStream(toks: seq<Token>)
    requires Stream(toks)
    ensures |toks| > 0 && toks[|toks| - 1].kind.EOFToken?
  {
  }

  lemma WholeParses(input: string, toks: seq<Token>, tree: Tree)
    requires Valid(GRAMMAR) && Lex(TABLE, input, 0) == Tokens(toks) && Stream(toks) && |toks| > 1
    requires ParseExpression(GRAMMAR, toks, 0, 0) == Ok(tree, |toks| - 1)
    ensures Parse(GRAMMAR, input) == Success(tree)
  {
    hide Lex, ParseExpression, Valid;
  }

  lemma BuiltVerdict(c: Codec, family: Family, f: Formula, r: FilterResult)
    requires var b := FormulaBuilt(c, family, f);
      && Decided(c, family, FormulaLeaves(f), b)
      && r == (if b.Built? then Accepted(b.e) else Rejected(b.fault))
      && (b.Built? ==> forall entry: RawEntry :: Evaluate(b.e, entry) <==> FormulaHolds(c, f, entry.addr))
    ensures Verdict(c, family, f, r)
  {
    hide FormulaBuilt, Evaluate, FormulaHolds, SomeSegmentHolds, Refused, Good;
    forall a: Addr ensures FormulaHolds(c, f, a) <==> SomeSegmentHolds(c, f, a) { FormulaHoldsSome(c, f, a); }
    if r.Rejected? {
      var k: nat :| RefusedAt(c, family, FormulaLeaves(f), k, r.fault);
      assert FormulaLeaves(f)[k] in FormulaLeaves(f);
    }
  }

  /** The same of text. */
  lemma TextDecides(c: Codec, family: Family, f: Formula)
    requires Writable(FormulaLeaves(f))
    ensures if f == BARE then ParseFilter(c, family, FormulaText(f)) == Accepted(KeepAll)
            else Verdict(c, family, f, ParseFilter(c, family, FormulaText(f)))
  {
    assert Delimited(TABLE, "");
    hide *;
    FormulaReads(f, "");
    NoEOFFormula(f);
    var toks := TextTokens(FormulaText(f), FormulaKeys(f));
    TokensDecide(c, family, f, FormulaText(f), toks);
  }

  lemma TextTokens(text: string, keys: seq<TokenKey>) returns (toks: seq<Token>)
    requires Reads(TABLE, text, keys, "") && NoEOF(keys)
    ensures Lex(TABLE, text, 0) == Tokens(toks) && |toks| == |keys| + 1 && At(toks, 0, keys)
  {
    hide Reads, Lex, At;
    toks := ReadsWhole(TABLE, text, keys);
  }
}
