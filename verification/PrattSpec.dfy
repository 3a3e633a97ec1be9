/** What a Pratt parser computes, and what its trees derive. */
module PrattSpec {
  import opened Results
  import opened Tokenizer
  import opened Grammar

  /** A tree and the position after it, or the failure that reached farthest. */
  datatype Parsed = Ok(tree: Tree, pos: nat) | Err(error: ParseError)

  /** Real tokens followed by EOF. */
  predicate Stream(toks: seq<Token>) {
    |toks| > 0 && forall i :: 0 <= i < |toks| ==> (toks[i].kind.EOFToken? <==> i == |toks| - 1)
  }

  /** The later failure; the earlier one when they tie. */
  function FartherError(farthest: Option<ParseError>, candidate: ParseError): ParseError {
    if farthest.None? || candidate.progress > farthest.value.progress then candidate else farthest.value
  }

  /** One null form, then every left form that binds tightly enough. */
  function ParseExpression(g: Pratt, toks: seq<Token>, pos: nat, minBindingPower: int): (r: Parsed)
    requires Stream(toks) && pos < |toks|
    ensures r.Ok? ==> pos < r.pos < |toks|
    decreases |toks| - pos, 2, 0
  {
    if toks[pos].kind.EOFToken? then Err(ParseError(toks[pos].span, UnexpectedEOF, pos))
    else
      var first := ParseNull(g, toks, pos + 1, toks[pos]);
      if first.Err? then first else LeftLoop(g, toks, first.pos, minBindingPower, first.tree)
  }

  function ParseNull(g: Pratt, toks: seq<Token>, pos: nat, token: Token): (r: Parsed)
    requires Stream(toks) && pos < |toks|
    ensures r.Ok? ==> pos <= r.pos < |toks|
    decreases |toks| - pos, 5, 0
  {
    var forms := NullRules(g.rules, KeyForToken(token));
    if |forms| > 0 then TryNull(g, toks, pos, token, forms, None)
    else if token.kind.AtomToken? then Ok(Atom(token), pos)
    else Err(ParseError(token.span, UnexpectedToken, pos))
  }

  function TryNull(g: Pratt, toks: seq<Token>, pos: nat, token: Token, forms: seq<Rule>, farthest: Option<ParseError>)
    : (r: Parsed)
    requires Stream(toks) && pos < |toks| && (|forms| > 0 || farthest.Some?)
    requires forall i :: 0 <= i < |forms| ==> |forms[i].pattern| > 0
    ensures r.Ok? ==> pos <= r.pos < |toks|
    decreases |toks| - pos, 4, |forms|
  {
    if |forms| == 0 then Err(farthest.value)
    else
      var r := ParseTail(g, toks, pos, forms[0], 1, [token], [], token.span);
      if r.Ok? then r else TryNull(g, toks, pos, token, forms[1..], Some(FartherError(farthest, r.error)))
  }

  function LeftLoop(g: Pratt, toks: seq<Token>, pos: nat, minBindingPower: int, left: Tree): (r: Parsed)
    requires Stream(toks) && pos < |toks|
    ensures r.Ok? ==> pos <= r.pos < |toks|
    decreases |toks| - pos, 5, 0
  {
    var forms := SelectLeftForms(g, toks[pos], minBindingPower);
    if |forms| == 0 then Ok(left, pos)
    else
      var next := TryLeft(g, toks, pos, forms, left, None);
      if next.Err? then next else LeftLoop(g, toks, next.pos, minBindingPower, next.tree)
  }

  function TryLeft(g: Pratt, toks: seq<Token>, pos: nat, forms: seq<Rule>, left: Tree, farthest: Option<ParseError>)
    : (r: Parsed)
    requires Stream(toks) && pos < |toks| && (|forms| > 0 || farthest.Some?)
    requires forall i :: 0 <= i < |forms| ==> |forms[i].pattern| > 1
    ensures r.Ok? ==> pos < r.pos < |toks|
    decreases |toks| - pos, 4, |forms|
  {
    if |forms| == 0 then Err(farthest.value)
    else
      var r := ParseTail(g, toks, pos, forms[0], 1, [], [left], SpanOf(left));
      if r.Ok? then r else TryLeft(g, toks, pos, forms[1..], left, Some(FartherError(farthest, r.error)))
  }

  /** The parts of a form from index k on. */
  function ParseTail(g: Pratt, toks: seq<Token>, pos: nat, form: Rule, k: nat,
                     tokens: seq<Token>, args: seq<Tree>, span: Span): (r: Parsed)
    requires Stream(toks) && pos < |toks| && k <= |form.pattern|
    ensures r.Ok? ==> pos <= r.pos < |toks| && (k < |form.pattern| ==> pos < r.pos)
    decreases |toks| - pos, 3, |form.pattern| - k
  {
    if k == |form.pattern| then Ok(Op(form.id, tokens, args, span), pos)
    else if form.pattern[k].Hole? then
      var child := ParseExpression(g, toks, pos, form.pattern[k].bindingPower);
      if child.Err? then child
      else ParseTail(g, toks, child.pos, form, k + 1, tokens, args + [child.tree], FromTo(span, SpanOf(child.tree)))
    else if KeyForToken(toks[pos]) == KeyForPart(form.pattern[k]) then
      ParseTail(g, toks, pos + 1, form, k + 1, tokens + [toks[pos]], args, FromTo(span, toks[pos].span))
    else Err(ParseError(toks[pos].span, Expectation(toks[pos], form.pattern[k]), pos))
  }

  function Expectation(token: Token, part: Part): Cause
    requires !part.Hole?
  {
    if token.kind.EOFToken? then MissingToken(part.text) else ExpectedToken(token.text, part.text)
  }

  datatype Result = Success(tree: Tree) | Failure(error: ParseError)

  function Parse(g: Pratt, input: string): Result
    requires Valid(g)
  {
    var lexed := Lex(g.table, input, 0);
    if lexed.LexError? then Failure(lexed.error)
    else
      var toks := lexed.tokens;
      assert Stream(toks) by { LexStream(g.table, input); }
      if toks[0].kind.EOFToken? then
        if HasEmpty(g.rules) then Success(EmptyTree)
        else Failure(ParseError(toks[0].span, UnexpectedEOF, 0))
      else
        var r := ParseExpression(g, toks, 0, 0);
        if r.Err? then Failure(r.error)
        else if !toks[r.pos].kind.EOFToken? then Failure(ParseError(toks[r.pos].span, UnexpectedToken, r.pos))
        else Success(r.tree)
  }

  lemma LexStream(t: Table, input: string)
    requires ValidTable(t) && Lex(t, input, 0).Tokens?
    ensures Stream(Lex(t, input, 0).tokens)
  {
    hide *;
    TokenizeIsLossless(t, input);
    LosslessKinds(t, input, 0, Lex(t, input, 0).tokens);
    StreamFromKinds(Lex(t, input, 0).tokens);
  }

  lemma StreamFromKinds(toks: seq<Token>)
    requires |toks| > 0 && toks[|toks| - 1].kind.EOFToken?
    requires forall i :: 0 <= i < |toks| - 1 ==> !toks[i].kind.EOFToken?
    ensures Stream(toks)
  {
  }

  // ---------------------------------------------------------------------------
  // Derivations

  /** tree derives toks[i..j] as an expression whose left-form spine binds at least as tightly as minBindingPower. */
  ghost predicate Derives(g: Pratt, toks: seq<Token>, i: nat, j: nat, minBindingPower: int, tree: Tree)
    decreases tree, 1, 0
  {
    match tree
    case EmptyTree => false
    case Atom(token) =>
      i < |toks| && j == i + 1 && token == toks[i] && token.kind.AtomToken?
      && NullRules(g.rules, KeyForToken(token)) == []
    case Op(_, _, _, _) =>
      || (exists r :: DerivesNull(g, toks, i, j, tree, r))
      || (exists r, m: nat :: DerivesLeft(g, toks, i, m, j, minBindingPower, tree, r))
  }

  ghost predicate DerivesNull(g: Pratt, toks: seq<Token>, i: nat, j: nat, tree: Tree, r: Rule)
    decreases tree, 0, |r.pattern| + 1
  {
    && tree.Op? && r in g.rules && IsNull(r) && r.id == tree.id
    && i < |toks| && |tree.tokens| > 0 && tree.tokens[0] == toks[i] && KeyForToken(toks[i]) == KeyForPart(r.pattern[0])
    && DerivesTail(g, toks, i + 1, j, tree, r, 1, 1, 0)
  }

  ghost predicate DerivesLeft(g: Pratt, toks: seq<Token>, i: nat, m: nat, j: nat, minBindingPower: int, tree: Tree,
                              r: Rule)
    decreases tree, 0, |r.pattern| + 1
  {
    && tree.Op? && r in g.rules && (IsLeft(r) || IsImplicit(r)) && r.id == tree.id
    && r.pattern[0].bindingPower >= minBindingPower
    && |tree.args| > 0 && Derives(g, toks, i, m, minBindingPower, tree.args[0])
    && DerivesTail(g, toks, m, j, tree, r, 1, 0, 1)
  }

  /** Parts k.. of rule r derive toks[i..j] with the tree's tokens from ti and arguments from ai on. */
  ghost predicate DerivesTail(g: Pratt, toks: seq<Token>, i: nat, j: nat, tree: Tree, r: Rule, k: nat, ti: nat, ai: nat)
    requires tree.Op? && k <= |r.pattern|
    decreases tree, 0, |r.pattern| - k
  {
    if k == |r.pattern| then i == j && ti == |tree.tokens| && ai == |tree.args|
    else if r.pattern[k].Hole? then
      ai < |tree.args| && exists m: nat ::
        && i < m <= j && Derives(g, toks, i, m, r.pattern[k].bindingPower, tree.args[ai])
        && DerivesTail(g, toks, m, j, tree, r, k + 1, ti, ai + 1)
    else
      && ti < |tree.tokens| && i < |toks| && tree.tokens[ti] == toks[i]
        && KeyForToken(toks[i]) == KeyForPart(r.pattern[k])
      && DerivesTail(g, toks, i + 1, j, tree, r, k + 1, ti + 1, ai)
  }

  /** The span of a tree is that of the tokens it derives. */
  predicate Spans(toks: seq<Token>, i: nat, j: nat, span: Span) {
    i < j <= |toks| && span == FromTo(toks[i].span, toks[j - 1].span)
  }

  // ---------------------------------------------------------------------------
  // The parser's trees derive what it consumed

  lemma {:induction false} ExpressionDerives(g: Pratt, toks: seq<Token>, pos: nat, minBindingPower: int)
    requires Stream(toks) && pos < |toks| && ParseExpression(g, toks, pos, minBindingPower).Ok?
    ensures var r := ParseExpression(g, toks, pos, minBindingPower);
      Derives(g, toks, pos, r.pos, minBindingPower, r.tree) && Spans(toks, pos, r.pos, SpanOf(r.tree))
    decreases |toks| - pos, 2, 0
  {
    var first := ParseNull(g, toks, pos + 1, toks[pos]);
    NullDerives(g, toks, pos, minBindingPower);
    LoopDerives(g, toks, pos, first.pos, minBindingPower, first.tree);
  }

  lemma {:induction false} NullDerives(g: Pratt, toks: seq<Token>, pos: nat, minBindingPower: int)
    requires Stream(toks) && pos + 1 < |toks| && ParseNull(g, toks, pos + 1, toks[pos]).Ok?
    ensures var r := ParseNull(g, toks, pos + 1, toks[pos]);
      Derives(g, toks, pos, r.pos, minBindingPower, r.tree) && Spans(toks, pos, r.pos, SpanOf(r.tree))
    decreases |toks| - pos - 1, 5, 0
  {
    var forms := NullRules(g.rules, KeyForToken(toks[pos]));
    if |forms| > 0 {
      var form := TryNullDerives(g, toks, pos, forms, None);
    }
  }

  lemma {:induction false} TryNullDerives(g: Pratt, toks: seq<Token>, pos: nat, forms: seq<Rule>,
                                          farthest: Option<ParseError>)
    returns (form: Rule)
    requires Stream(toks) && pos + 1 < |toks| && (|forms| > 0 || farthest.Some?)
    requires forall i :: 0 <= i < |forms| ==> |forms[i].pattern| > 0
    requires forall i :: 0 <= i < |forms| ==>
      forms[i] in g.rules && IsNull(forms[i]) && KeyForPart(forms[i].pattern[0]) == KeyForToken(toks[pos])
    requires TryNull(g, toks, pos + 1, toks[pos], forms, farthest).Ok?
    ensures var r := TryNull(g, toks, pos + 1, toks[pos], forms, farthest);
      r.tree.Op? && DerivesNull(g, toks, pos, r.pos, r.tree, form) && Spans(toks, pos, r.pos, SpanOf(r.tree))
    decreases |toks| - pos - 1, 4, |forms|
  {
    form := forms[0];
    var r := ParseTail(g, toks, pos + 1, form, 1, [toks[pos]], [], toks[pos].span);
    if r.Ok? {
      TailDerives(g, toks, pos, pos + 1, form, 1, [toks[pos]], [], toks[pos].span);
    } else {
      form := TryNullDerives(g, toks, pos, forms[1..], Some(FartherError(farthest, r.error)));
    }
  }

  lemma {:induction false} LoopDerives(g: Pratt, toks: seq<Token>, start: nat, pos: nat, minBindingPower: int,
                                       left: Tree)
    requires Stream(toks) && start < pos < |toks|
    requires Derives(g, toks, start, pos, minBindingPower, left) && Spans(toks, start, pos, SpanOf(left))
    requires LeftLoop(g, toks, pos, minBindingPower, left).Ok?
    ensures var r := LeftLoop(g, toks, pos, minBindingPower, left);
      Derives(g, toks, start, r.pos, minBindingPower, r.tree) && Spans(toks, start, r.pos, SpanOf(r.tree))
    decreases |toks| - pos, 5, 0
  {
    var forms := SelectLeftForms(g, toks[pos], minBindingPower);
    if |forms| > 0 {
      var form := TryLeftDerives(g, toks, start, pos, minBindingPower, forms, left, None);
      var next := TryLeft(g, toks, pos, forms, left, None);
      assert DerivesLeft(g, toks, start, pos, next.pos, minBindingPower, next.tree, form);
      assert Derives(g, toks, start, next.pos, minBindingPower, next.tree);
      hide Derives, DerivesLeft, SelectLeftForms;
      LoopDerives(g, toks, start, next.pos, minBindingPower, next.tree);
    }
  }

  lemma {:induction false} TryLeftDerives(g: Pratt, toks: seq<Token>, start: nat, pos: nat, minBindingPower: int,
                                          forms: seq<Rule>, left: Tree, farthest: Option<ParseError>)
    returns (form: Rule)
    requires Stream(toks) && start < pos < |toks| && (|forms| > 0 || farthest.Some?)
    requires forall i :: 0 <= i < |forms| ==> |forms[i].pattern| > 1
    requires forall i :: 0 <= i < |forms| ==>
      && forms[i] in g.rules && (IsImplicit(forms[i]) || IsLeft(forms[i]))
      && forms[i].pattern[0].bindingPower >= minBindingPower
    requires Derives(g, toks, start, pos, minBindingPower, left) && Spans(toks, start, pos, SpanOf(left))
    requires TryLeft(g, toks, pos, forms, left, farthest).Ok?
    ensures var r := TryLeft(g, toks, pos, forms, left, farthest);
      && r.tree.Op? && DerivesLeft(g, toks, start, pos, r.pos, minBindingPower, r.tree, form)
      && Spans(toks, start, r.pos, SpanOf(r.tree))
    decreases |toks| - pos, 4, |forms|
  {
    form := forms[0];
    var r := ParseTail(g, toks, pos, form, 1, [], [left], SpanOf(left));
    if r.Ok? {
      TailDerives(g, toks, start, pos, form, 1, [], [left], SpanOf(left));
      assert r.tree.args[..1][0] == left;
    } else {
      form := TryLeftDerives(g, toks, start, pos, minBindingPower, forms[1..], left,
        Some(FartherError(farthest, r.error)));
    }
  }

  lemma HoleDerives(g: Pratt, toks: seq<Token>, i: nat, m: nat, j: nat, tree: Tree, r: Rule, k: nat, ti: nat, ai: nat)
    requires tree.Op? && k < |r.pattern| && r.pattern[k].Hole? && ai < |tree.args| && i < m <= j
    requires Derives(g, toks, i, m, r.pattern[k].bindingPower, tree.args[ai])
    requires DerivesTail(g, toks, m, j, tree, r, k + 1, ti, ai + 1)
    ensures DerivesTail(g, toks, i, j, tree, r, k, ti, ai)
  {
  }

  lemma {:induction false} TailDerives(g: Pratt, toks: seq<Token>, start: nat, pos: nat, form: Rule, k: nat,
                                       tokens: seq<Token>, args: seq<Tree>, span: Span)
    requires Stream(toks) && start < pos < |toks| && k <= |form.pattern|
    requires Spans(toks, start, pos, span)
    requires ParseTail(g, toks, pos, form, k, tokens, args, span).Ok?
    ensures var r := ParseTail(g, toks, pos, form, k, tokens, args, span);
      && r.tree.Op? && r.tree.id == form.id && tokens <= r.tree.tokens && args <= r.tree.args
      && DerivesTail(g, toks, pos, r.pos, r.tree, form, k, |tokens|, |args|)
      && Spans(toks, start, r.pos, SpanOf(r.tree))
    decreases |toks| - pos, 3, |form.pattern| - k
  {
    hide Derives, ParseExpression;
    var r := ParseTail(g, toks, pos, form, k, tokens, args, span);
    TailUnfolds(g, toks, pos, form, k, tokens, args, span);
    hide ParseTail;
    if k < |form.pattern| {
      if form.pattern[k].Hole? {
        hide DerivesTail;
        var child := ParseExpression(g, toks, pos, form.pattern[k].bindingPower);
        ExpressionDerives(g, toks, pos, form.pattern[k].bindingPower);
        TailDerives(g, toks, start, child.pos, form, k + 1, tokens, args + [child.tree],
                    FromTo(span, SpanOf(child.tree)));
        assert (args + [child.tree])[|args|] == r.tree.args[|args|];
        HoleDerives(g, toks, pos, child.pos, r.pos, r.tree, form, k, |tokens|, |args|);
      } else {
        TailDerives(g, toks, start, pos + 1, form, k + 1, tokens + [toks[pos]], args, FromTo(span, toks[pos].span));
        assert (tokens + [toks[pos]])[|tokens|] == r.tree.tokens[|tokens|];
      }
    }
  }

  /** The three ways a tail succeeds. */
  lemma TailUnfolds(g: Pratt, toks: seq<Token>, pos: nat, form: Rule, k: nat,
                    tokens: seq<Token>, args: seq<Tree>, span: Span)
    requires Stream(toks) && pos < |toks| && k <= |form.pattern|
    requires ParseTail(g, toks, pos, form, k, tokens, args, span).Ok?
    ensures var r := ParseTail(g, toks, pos, form, k, tokens, args, span);
      if k == |form.pattern| then r == Ok(Op(form.id, tokens, args, span), pos)
      else if form.pattern[k].Hole? then
        var child := ParseExpression(g, toks, pos, form.pattern[k].bindingPower);
        child.Ok? && r == ParseTail(g, toks, child.pos, form, k + 1, tokens, args + [child.tree],
                                    FromTo(span, SpanOf(child.tree)))
      else
        && pos + 1 < |toks| && KeyForToken(toks[pos]) == KeyForPart(form.pattern[k])
        && r == ParseTail(g, toks, pos + 1, form, k + 1, tokens + [toks[pos]], args, FromTo(span, toks[pos].span))
  {
    hide ParseExpression;
  }

  // ---------------------------------------------------------------------------
  // Token conservation

  /** All the tokens of a tree. */
  function TokensIn(t: Tree): multiset<Token>
    decreases t, 1, 0
  {
    match t
    case EmptyTree => multiset{}
    case Atom(token) => multiset{token}
    case Op(_, tokens, _, _) => multiset(tokens) + ArgTokens(t, 0)
  }

  function ArgTokens(t: Tree, ai: nat): multiset<Token>
    requires t.Op? && ai <= |t.args|
    decreases t, 0, |t.args| - ai
  {
    if ai == |t.args| then multiset{} else TokensIn(t.args[ai]) + ArgTokens(t, ai + 1)
  }

  lemma LeftParts(g: Pratt, toks: seq<Token>, i: nat, m: nat, j: nat, minBindingPower: int, tree: Tree, r: Rule)
    requires DerivesLeft(g, toks, i, m, j, minBindingPower, tree, r)
    ensures tree.Op? && |r.pattern| > 1 && |tree.args| > 0
    ensures Derives(g, toks, i, m, minBindingPower, tree.args[0])
    ensures DerivesTail(g, toks, m, j, tree, r, 1, 0, 1)
  {
  }

  lemma NullParts(g: Pratt, toks: seq<Token>, i: nat, j: nat, tree: Tree, r: Rule)
    requires DerivesNull(g, toks, i, j, tree, r)
    ensures tree.Op? && |r.pattern| > 0 && i < |toks| && |tree.tokens| > 0 && tree.tokens[0] == toks[i]
    ensures DerivesTail(g, toks, i + 1, j, tree, r, 1, 1, 0)
  {
  }

  lemma HoleParts(g: Pratt, toks: seq<Token>, i: nat, j: nat, tree: Tree, r: Rule, k: nat, ti: nat, ai: nat)
    returns (m: nat)
    requires tree.Op? && k < |r.pattern| && r.pattern[k].Hole?
    requires DerivesTail(g, toks, i, j, tree, r, k, ti, ai)
    ensures ai < |tree.args| && i < m <= j && Derives(g, toks, i, m, r.pattern[k].bindingPower, tree.args[ai])
    ensures DerivesTail(g, toks, m, j, tree, r, k + 1, ti, ai + 1)
  {
    m :| i < m <= j && Derives(g, toks, i, m, r.pattern[k].bindingPower, tree.args[ai])
         && DerivesTail(g, toks, m, j, tree, r, k + 1, ti, ai + 1);
  }

  lemma FirstAndRest<T>(s: seq<T>, i: nat, j: nat)
    requires i < j <= |s|
    ensures multiset(s[i..j]) == multiset{s[i]} + multiset(s[i + 1..j])
  {
    assert s[i..j] == [s[i]] + s[i + 1..j];
  }

  lemma DropFirst<T>(s: seq<T>, i: nat)
    requires i < |s|
    ensures multiset(s[i..]) == multiset{s[i]} + multiset(s[i + 1..])
  {
    assert s[i..] == [s[i]] + s[i + 1..];
  }

  lemma TwoParts<T>(s: seq<T>, i: nat, m: nat, j: nat)
    requires i <= m <= j <= |s|
    ensures multiset(s[i..j]) == multiset(s[i..m]) + multiset(s[m..j])
  {
    assert s[i..j] == s[i..m] + s[m..j];
  }

  lemma {:induction false} DerivesConserves(g: Pratt, toks: seq<Token>, i: nat, j: nat, minBindingPower: int,
                                            tree: Tree)
    requires Derives(g, toks, i, j, minBindingPower, tree)
    ensures i < j <= |toks| && TokensIn(tree) == multiset(toks[i..j])
    decreases tree, 1, 0
  {
    if tree.Atom? {
      assert toks[i..j] == [tree.token];
    } else if r :| DerivesNull(g, toks, i, j, tree, r) {
      NullConserves(g, toks, i, j, tree, r);
    } else {
      var r, m: nat :| DerivesLeft(g, toks, i, m, j, minBindingPower, tree, r);
      LeftConserves(g, toks, i, m, j, minBindingPower, tree, r);
    }
  }

  lemma {:induction false} NullConserves(g: Pratt, toks: seq<Token>, i: nat, j: nat, tree: Tree, r: Rule)
    requires DerivesNull(g, toks, i, j, tree, r)
    ensures i < j <= |toks| && TokensIn(tree) == multiset(toks[i..j])
    decreases tree, 0, |r.pattern| + 1
  {
    NullParts(g, toks, i, j, tree, r);
    hide DerivesNull, DerivesTail, ArgTokens;
    TailConserves(g, toks, i + 1, j, tree, r, 1, 1, 0);
    FirstAndRest(toks, i, j);
    DropFirst(tree.tokens, 0);
    assert tree.tokens[0..] == tree.tokens;
  }

  lemma {:induction false} LeftConserves(g: Pratt, toks: seq<Token>, i: nat, m: nat, j: nat, minBindingPower: int,
                                         tree: Tree, r: Rule)
    requires DerivesLeft(g, toks, i, m, j, minBindingPower, tree, r)
    ensures i < j <= |toks| && TokensIn(tree) == multiset(toks[i..j])
    decreases tree, 0, |r.pattern| + 1
  {
    LeftParts(g, toks, i, m, j, minBindingPower, tree, r);
    hide Derives, DerivesLeft, DerivesTail;
    DerivesConserves(g, toks, i, m, minBindingPower, tree.args[0]);
    TailConserves(g, toks, m, j, tree, r, 1, 0, 1);
    TwoParts(toks, i, m, j);
    assert tree.tokens[0..] == tree.tokens;
  }

  lemma {:induction false} TailConserves(g: Pratt, toks: seq<Token>, i: nat, j: nat, tree: Tree, r: Rule, k: nat,
                                         ti: nat, ai: nat)
    requires tree.Op? && k <= |r.pattern| && i <= |toks| && ti <= |tree.tokens| && ai <= |tree.args|
    requires DerivesTail(g, toks, i, j, tree, r, k, ti, ai)
    ensures i <= j <= |toks| && multiset(tree.tokens[ti..]) + ArgTokens(tree, ai) == multiset(toks[i..j])
    decreases tree, 0, |r.pattern| - k
  {
    hide Derives, TokensIn;
    if k < |r.pattern| {
      if r.pattern[k].Hole? {
        var m := HoleParts(g, toks, i, j, tree, r, k, ti, ai);
        hide DerivesTail;
        DerivesConserves(g, toks, i, m, r.pattern[k].bindingPower, tree.args[ai]);
        TailConserves(g, toks, m, j, tree, r, k + 1, ti, ai + 1);
        TwoParts(toks, i, m, j);
      } else {
        TokenParts(g, toks, i, j, tree, r, k, ti, ai);
        hide DerivesTail;
        TailConserves(g, toks, i + 1, j, tree, r, k + 1, ti + 1, ai);
        FirstAndRest(toks, i, j);
        DropFirst(tree.tokens, ti);
      }
    }
  }

  lemma TokenParts(g: Pratt, toks: seq<Token>, i: nat, j: nat, tree: Tree, r: Rule, k: nat, ti: nat, ai: nat)
    requires tree.Op? && k < |r.pattern| && !r.pattern[k].Hole?
    requires DerivesTail(g, toks, i, j, tree, r, k, ti, ai)
    ensures ti < |tree.tokens| && i < |toks| && tree.tokens[ti] == toks[i]
    ensures DerivesTail(g, toks, i + 1, j, tree, r, k + 1, ti + 1, ai)
  {
  }

  /** A successful parse derives every token of the input, in order, and keeps each exactly once. */
  lemma ParseDerivesInput(g: Pratt, input: string)
    requires Valid(g) && Parse(g, input).Success?
    ensures Lex(g.table, input, 0).Tokens?
    ensures var toks, tree := Lex(g.table, input, 0).tokens, Parse(g, input).tree;
      && |toks| > 0
      && (tree == EmptyTree <==> |toks| == 1)
      && (tree != EmptyTree ==>
        && Derives(g, toks, 0, |toks| - 1, 0, tree)
        && Spans(toks, 0, |toks| - 1, SpanOf(tree)))
      && TokensIn(tree) == multiset(toks[..|toks| - 1])
  {
    hide Derives, Lex, Spans, Valid;
    var toks := Lex(g.table, input, 0).tokens;
    assert Stream(toks) by { assert ValidTable(g.table) by { TableOf(g); } LexStream(g.table, input); }
    if !toks[0].kind.EOFToken? {
      var r := ParseExpression(g, toks, 0, 0);
      assert r.pos == |toks| - 1;
      ExpressionDerives(g, toks, 0, 0);
      DerivesConserves(g, toks, 0, r.pos, 0, r.tree);
    }
  }

  lemma TableOf(g: Pratt)
    requires Valid(g)
    ensures ValidTable(g.table)
  {
  }

  // ---------------------------------------------------------------------------
  // Nothing that could be taken in is left

  lemma {:induction false} LoopIsGreedy(g: Pratt, toks: seq<Token>, pos: nat, minBindingPower: int, left: Tree)
    requires Stream(toks) && pos < |toks| && LeftLoop(g, toks, pos, minBindingPower, left).Ok?
    ensures SelectLeftForms(g, toks[LeftLoop(g, toks, pos, minBindingPower, left).pos], minBindingPower) == []
    decreases |toks| - pos
  {
    hide ParseTail, SelectLeftForms;
    var forms := SelectLeftForms(g, toks[pos], minBindingPower);
    if |forms| > 0 {
      var next := TryLeft(g, toks, pos, forms, left, None);
      LoopIsGreedy(g, toks, next.pos, minBindingPower, next.tree);
    }
  }

  /** An expression ends where no form extends it. */
  lemma ExpressionIsGreedy(g: Pratt, toks: seq<Token>, pos: nat, minBindingPower: int)
    requires Stream(toks) && pos < |toks| && ParseExpression(g, toks, pos, minBindingPower).Ok?
    ensures SelectLeftForms(g, toks[ParseExpression(g, toks, pos, minBindingPower).pos], minBindingPower) == []
  {
    hide ParseNull, LeftLoop, SelectLeftForms;
    var first := ParseNull(g, toks, pos + 1, toks[pos]);
    LoopIsGreedy(g, toks, first.pos, minBindingPower, first.tree);
  }

  // ---------------------------------------------------------------------------
  // The reported failure

  /** r is the first success among rs; if all fail, the first of those that reached farthest. */
  ghost predicate Chosen(rs: seq<Parsed>, r: Parsed) {
    exists i :: 0 <= i < |rs| && ChosenAt(rs, r, i)
  }

  ghost predicate ChosenAt(rs: seq<Parsed>, r: Parsed, i: nat)
    requires i < |rs|
  {
    && rs[i] == r
    && (forall k :: 0 <= k < i ==> rs[k].Err?)
    && (r.Err? ==>
      && (forall k :: 0 <= k < i ==> rs[k].error.progress < r.error.progress)
      && (forall k :: i <= k < |rs| ==> rs[k].Err? && rs[k].error.progress <= r.error.progress))
  }

  /** One step of an ordered choice, after `farthest`, the choice among the failures before. */
  lemma ChoiceStep(rs: seq<Parsed>, before: seq<Parsed>, farthest: Option<ParseError>)
    requires |rs| > 0 && rs[0].Err?
    requires if farthest.None? then before == [] else Chosen(before, Err(farthest.value))
    ensures Chosen(before + [rs[0]], Err(FartherError(farthest, rs[0].error)))
    ensures (before + [rs[0]]) + rs[1..] == before + rs
  {
    var all, e := before + [rs[0]], FartherError(farthest, rs[0].error);
    if farthest.Some? && e == farthest.value {
      var i :| 0 <= i < |before| && ChosenAt(before, Err(farthest.value), i);
      assert ChosenAt(all, Err(e), i);
    } else {
      if farthest.Some? {
        var i :| 0 <= i < |before| && ChosenAt(before, Err(farthest.value), i);
        assert forall k :: 0 <= k < |before| ==> before[k].Err? && before[k].error.progress <= farthest.value.progress;
      }
      assert ChosenAt(all, Err(e), |before|);
    }
  }

  /** The first success after failures is the choice. */
  lemma ChoiceEnds(rs: seq<Parsed>, before: seq<Parsed>, farthest: Option<ParseError>)
    requires |rs| > 0 && rs[0].Ok?
    requires if farthest.None? then before == [] else Chosen(before, Err(farthest.value))
    ensures Chosen(before + rs, rs[0])
  {
    if farthest.Some? {
      var i :| 0 <= i < |before| && ChosenAt(before, Err(farthest.value), i);
      assert forall k :: 0 <= k < |before| ==> before[k].Err?;
    }
    assert ChosenAt(before + rs, rs[0], |before|);
  }

  /** What the left forms yield, one by one. */
  function LeftResults(g: Pratt, toks: seq<Token>, pos: nat, forms: seq<Rule>, left: Tree): (rs: seq<Parsed>)
    requires Stream(toks) && pos < |toks| && forall i :: 0 <= i < |forms| ==> |forms[i].pattern| > 1
    ensures |rs| == |forms|
  {
    seq(|forms|, i requires 0 <= i < |forms| => ParseTail(g, toks, pos, forms[i], 1, [], [left], SpanOf(left)))
  }

  /** What the null forms yield behind their first token. */
  function NullResults(g: Pratt, toks: seq<Token>, pos: nat, token: Token, forms: seq<Rule>): (rs: seq<Parsed>)
    requires Stream(toks) && pos < |toks| && forall i :: 0 <= i < |forms| ==> |forms[i].pattern| > 0
    ensures |rs| == |forms|
  {
    seq(|forms|, i requires 0 <= i < |forms| => ParseTail(g, toks, pos, forms[i], 1, [token], [], token.span))
  }

  /** Ordered choice among left forms: the first success, or else the first of the farthest failures. */
  lemma {:induction false} LeftChoice(g: Pratt, toks: seq<Token>, pos: nat, forms: seq<Rule>, left: Tree,
                                      before: seq<Parsed>, farthest: Option<ParseError>)
    requires Stream(toks) && pos < |toks| && (|forms| > 0 || farthest.Some?)
    requires forall i :: 0 <= i < |forms| ==> |forms[i].pattern| > 1
    requires if farthest.None? then before == [] else Chosen(before, Err(farthest.value))
    ensures Chosen(before + LeftResults(g, toks, pos, forms, left), TryLeft(g, toks, pos, forms, left, farthest))
    decreases |forms|
  {
    hide ParseTail, Chosen;
    var rs := LeftResults(g, toks, pos, forms, left);
    if |forms| == 0 {
      assert before + rs == before;
    } else if rs[0].Ok? {
      ChoiceEnds(rs, before, farthest);
    } else {
      ChoiceStep(rs, before, farthest);
      assert LeftResults(g, toks, pos, forms[1..], left) == rs[1..];
      LeftChoice(g, toks, pos, forms[1..], left, before + [rs[0]], Some(FartherError(farthest, rs[0].error)));
    }
  }

  lemma {:induction false} NullChoice(g: Pratt, toks: seq<Token>, pos: nat, token: Token, forms: seq<Rule>,
                                      before: seq<Parsed>, farthest: Option<ParseError>)
    requires Stream(toks) && pos < |toks| && (|forms| > 0 || farthest.Some?)
    requires forall i :: 0 <= i < |forms| ==> |forms[i].pattern| > 0
    requires if farthest.None? then before == [] else Chosen(before, Err(farthest.value))
    ensures Chosen(before + NullResults(g, toks, pos, token, forms), TryNull(g, toks, pos, token, forms, farthest))
    decreases |forms|
  {
    hide ParseTail, Chosen;
    var rs := NullResults(g, toks, pos, token, forms);
    if |forms| == 0 {
      assert before + rs == before;
    } else if rs[0].Ok? {
      ChoiceEnds(rs, before, farthest);
    } else {
      ChoiceStep(rs, before, farthest);
      assert NullResults(g, toks, pos, token, forms[1..]) == rs[1..];
      NullChoice(g, toks, pos, token, forms[1..], before + [rs[0]], Some(FartherError(farthest, rs[0].error)));
    }
  }

  /** Both loops of ordered alternatives take the first success and report the first of the farthest failures. */
  lemma FarthestReported(g: Pratt, toks: seq<Token>, pos: nat, forms: seq<Rule>, token: Token, left: Tree)
    requires Stream(toks) && pos < |toks| && |forms| > 0
    requires forall i :: 0 <= i < |forms| ==> |forms[i].pattern| > 0
    ensures Chosen(NullResults(g, toks, pos, token, forms), TryNull(g, toks, pos, token, forms, None))
    ensures (forall i :: 0 <= i < |forms| ==> |forms[i].pattern| > 1) ==>
      Chosen(LeftResults(g, toks, pos, forms, left), TryLeft(g, toks, pos, forms, left, None))
  {
    hide Chosen, TryNull, TryLeft;
    NullChoice(g, toks, pos, token, forms, [], None);
    assert [] + NullResults(g, toks, pos, token, forms) == NullResults(g, toks, pos, token, forms);
    if forall i :: 0 <= i < |forms| ==> |forms[i].pattern| > 1 {
      LeftChoice(g, toks, pos, forms, left, [], None);
      assert [] + LeftResults(g, toks, pos, forms, left) == LeftResults(g, toks, pos, forms, left);
    }
  }
}
