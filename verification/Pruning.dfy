/** Acting on every redundancy finding of an expression at once: the pruned expression means the same. */
module Pruning {
  import opened Domains
  import opened DomainExpr
  import opened Lint

  /** The operand a chain can do without. */
  function Neutral(op: Operator): bool { op == AndOp }

  /** The literals an operand contributes to the redundancy check of its chain. */
  function TermLits(x: Expr, op: Operator): seq<Lit> {
    if op == OrOp then Expanded(x) else if Classify(x).LitTerm? then [Classify(x).l] else []
  }

  /** The literals of the chain of op at e, in order. */
  function ChainLits(e: Expr, op: Operator): seq<Lit> {
    if IsChain(e, op) then ChainLits(e.left, op) + ChainLits(e.right, op) else TermLits(e, op)
  }

  predicate Flagged(op: Operator, lits: seq<Lit>, i: nat)
    requires i < |lits|
  {
    if op == OrOp then RedundantInOr(lits, i) else RedundantInAnd(lits, i)
  }

  // ---------------------------------------------------------------------------
  // Pruning

  /** The arguments that are not flagged, the first being literal off of the chain. */
  function KeptArgs<T>(args: seq<T>, op: Operator, all: seq<Lit>, off: nat): seq<T>
    requires off + |args| <= |all|
  {
    if |args| == 0 then []
    else (if Flagged(op, all, off) then [] else [args[0]]) + KeptArgs(args[1..], op, all, off + 1)
  }

  function KeptCall(x: Expr, op: Operator, all: seq<Lit>, off: nat): (r: Expr)
    requires IsCall(x) && off + |AtomsOfCall(x)| <= |all|
    ensures IsCall(r)
  {
    match x
    case Is(domains) => Is(KeptArgs(domains, op, all, off))
    case Sub(suffixes) => Sub(KeptArgs(suffixes, op, all, off))
  }

  /** What is left of the operands of the chain at e, whose literals begin at off. */
  function KeptTerms(e: Expr, op: Operator, all: seq<Lit>, off: nat): seq<Expr>
    requires off + |ChainLits(e, op)| <= |all|
    decreases e, 1
  {
    if IsChain(e, op) then
      KeptTerms(e.left, op, all, off) + KeptTerms(e.right, op, all, off + |ChainLits(e.left, op)|)
    else if e.Literal? then if e.value == Neutral(op) then [] else [e]
    else if |TermLits(e, op)| == 0 then [Prune(e)]
    else if IsCall(e) then
      var call := KeptCall(e, op, all, off);
      if |AtomsOfCall(call)| == 0 then [] else [call]
    else if Flagged(op, all, off) then [] else [e]
  }

  function Join(op: Operator, terms: seq<Expr>): Expr {
    if |terms| == 0 then Literal(Neutral(op))
    else if |terms| == 1 then terms[0]
    else Binary(op, Join(op, terms[..|terms| - 1]), terms[|terms| - 1])
  }

  /** e without the terms reported as redundant, in every chain and every call of e. */
  function Prune(e: Expr): Expr
    decreases e, 0
  {
    match e
    case Literal(_) => e
    case Is(_) => KeptCall(e, OrOp, AtomsOfCall(e), 0)
    case Sub(_) => KeptCall(e, OrOp, AtomsOfCall(e), 0)
    case Not(operand) => Not(Prune(operand))
    case Binary(op, left, right) =>
      var all := ChainLits(e, op);
      Join(op, KeptTerms(left, op, all, 0) + KeptTerms(right, op, all, |ChainLits(left, op)|))
  }

  // ---------------------------------------------------------------------------
  // The literals are those the analysis looks at

  lemma NoLits()
    ensures LitsOf([]) == [] && ExpandedAll([]) == []
  {
  }

  lemma LitsOfSnoc(a: seq<Expr>, x: Expr)
    ensures LitsOf(a + [x]) == LitsOf(a) + TermLits(x, AndOp)
    ensures ExpandedAll(a + [x]) == ExpandedAll(a) + TermLits(x, OrOp)
  {
    hide Classify, Expanded;
    assert (a + [x])[..|a|] == a;
  }

  lemma {:induction false} LitsOfConcat(a: seq<Expr>, b: seq<Expr>)
    ensures LitsOf(a + b) == LitsOf(a) + LitsOf(b) && ExpandedAll(a + b) == ExpandedAll(a) + ExpandedAll(b)
  {
    hide LitsOf, ExpandedAll, TermLits;
    if |b| == 0 {
      assert a + b == a;
      NoLits();
    } else {
      var init, last := b[..|b| - 1], b[|b| - 1];
      LitsOfConcat(a, init);
      assert b == init + [last] && a + b == (a + init) + [last];
      LitsOfSnoc(init, last);
      LitsOfSnoc(a + init, last);
    }
  }

  lemma {:induction false} ChainLitsAre(e: Expr, op: Operator)
    ensures ChainLits(e, op) == if op == OrOp then ExpandedAll(Flatten(e, op)) else LitsOf(Flatten(e, op))
  {
    if IsChain(e, op) {
      ChainLitsAre(e.left, op);
      ChainLitsAre(e.right, op);
      LitsOfConcat(Flatten(e.left, op), Flatten(e.right, op));
    } else {
      LitsOfSnoc([], e);
      assert [] + [e] == [e];
    }
  }

  /** The flagged literals of a chain are those its analysis reports. */
  lemma FlaggedAreReported(x: Expr, l: Lit)
    requires x.Binary?
    ensures ChainReports(x, RedundantLiteral(l)) <==>
      exists i :: 0 <= i < |ChainLits(x, x.op)| && ChainLits(x, x.op)[i] == l && Flagged(x.op, ChainLits(x, x.op), i)
  {
    hide RedundantInOr, RedundantInAnd, Flatten, LitsOf, ExpandedAll, ChainLits;
    ChainLitsAre(x, x.op);
  }

  /** A literal flagged in part of a chain is flagged in the whole chain. */
  lemma FlagsGrow(op: Operator, before: seq<Lit>, part: seq<Lit>, after: seq<Lit>, i: nat)
    requires i < |part| && Flagged(op, part, i)
    ensures Flagged(op, before + part + after, |before| + i)
  {
    hide Subsumes;
    var all := before + part + after;
    assert forall k :: 0 <= k < |part| ==> all[|before| + k] == part[k];
    if op == OrOp {
      var j :| 0 <= j < |part| && CoveredBy(part, i, j);
      assert CoveredBy(all, |before| + i, |before| + j);
    } else {
      var j :| 0 <= j < |part| && ImpliedBy(part, i, j);
      assert ImpliedBy(all, |before| + i, |before| + j);
    }
  }

  // ---------------------------------------------------------------------------
  // Meaning

  predicate Combine(op: Operator, a: bool, b: bool) {
    if op == AndOp then a && b else a || b
  }

  /** The value of a list of operands. */
  predicate TermsValue(op: Operator, terms: seq<Expr>, name: string) {
    if op == AndOp then forall i :: 0 <= i < |terms| ==> Evaluate(terms[i], name)
    else exists i :: 0 <= i < |terms| && Evaluate(terms[i], name)
  }

  /** The value of the unflagged literals from lo to hi. */
  predicate KeptValue(op: Operator, all: seq<Lit>, lo: nat, hi: nat, name: string)
    requires lo <= hi <= |all|
  {
    if op == AndOp then forall k :: lo <= k < hi && !Flagged(op, all, k) ==> Holds(all[k], name)
    else exists k :: lo <= k < hi && !Flagged(op, all, k) && Holds(all[k], name)
  }

  predicate LitsValue(op: Operator, lits: seq<Lit>, name: string) {
    if op == AndOp then AllHold(lits, name) else SomeHolds(lits, name)
  }

  /** The value of the operands that contribute no literal. */
  predicate RestValue(e: Expr, op: Operator, name: string) {
    if IsChain(e, op) then Combine(op, RestValue(e.left, op, name), RestValue(e.right, op, name))
    else if |TermLits(e, op)| == 0 then Evaluate(e, name)
    else Neutral(op)
  }

  lemma {:induction false} JoinMeaning(op: Operator, terms: seq<Expr>, name: string)
    ensures Evaluate(Join(op, terms), name) == TermsValue(op, terms, name)
  {
    if |terms| > 1 {
      JoinMeaning(op, terms[..|terms| - 1], name);
      assert terms == terms[..|terms| - 1] + [terms[|terms| - 1]];
      TermsConcat(op, terms[..|terms| - 1], [terms[|terms| - 1]], name);
    }
  }

  lemma TermsConcat(op: Operator, a: seq<Expr>, b: seq<Expr>, name: string)
    ensures TermsValue(op, a + b, name) == Combine(op, TermsValue(op, a, name), TermsValue(op, b, name))
  {
    hide Evaluate;
    assert forall i :: 0 <= i < |a| ==> (a + b)[i] == a[i];
    assert forall i :: 0 <= i < |b| ==> (a + b)[|a| + i] == b[i];
  }

  lemma LitsConcat(op: Operator, a: seq<Lit>, b: seq<Lit>, name: string)
    ensures LitsValue(op, a + b, name) == Combine(op, LitsValue(op, a, name), LitsValue(op, b, name))
  {
    hide Holds;
    assert forall i :: 0 <= i < |a| ==> (a + b)[i] == a[i];
    assert forall i :: 0 <= i < |b| ==> (a + b)[|a| + i] == b[i];
  }

  /** A chain is its literals and its other operands together. */
  lemma {:induction false} ChainMeaning(e: Expr, op: Operator, name: string)
    ensures Evaluate(e, name) == Combine(op, RestValue(e, op, name), LitsValue(op, ChainLits(e, op), name))
  {
    if IsChain(e, op) {
      ChainMeaning(e.left, op, name);
      ChainMeaning(e.right, op, name);
      LitsConcat(op, ChainLits(e.left, op), ChainLits(e.right, op), name);
    } else {
      TermMeaning(e, op, name);
    }
  }

  lemma TermMeaning(x: Expr, op: Operator, name: string)
    ensures |TermLits(x, op)| > 0 ==> Evaluate(x, name) == LitsValue(op, TermLits(x, op), name)
  {
    if |TermLits(x, op)| > 0 {
      if op == OrOp { ExpandedMeaning(x, name); } else { ClassifyMeaning(x, name); }
    }
  }

  /** Some unflagged argument has property p. */
  ghost predicate SomeKept<T>(args: seq<T>, op: Operator, all: seq<Lit>, off: nat, p: T -> bool)
    requires off + |args| <= |all|
  {
    exists k :: 0 <= k < |args| && p(args[k]) && !Flagged(op, all, off + k)
  }

  ghost predicate Meets<T>(s: seq<T>, p: T -> bool) {
    exists i :: 0 <= i < |s| && p(s[i])
  }

  lemma MeetsConcat<T>(a: seq<T>, b: seq<T>, p: T -> bool)
    ensures Meets(a + b, p) <==> Meets(a, p) || Meets(b, p)
  {
    assert forall i :: 0 <= i < |a| ==> (a + b)[i] == a[i];
    assert forall i :: 0 <= i < |b| ==> (a + b)[|a| + i] == b[i];
  }

  /** KeptArgs keeps exactly the unflagged arguments. */
  lemma {:induction false} KeptArgsOf<T>(args: seq<T>, op: Operator, all: seq<Lit>, off: nat, p: T -> bool)
    requires off + |args| <= |all|
    ensures Meets(KeptArgs(args, op, all, off), p) <==> SomeKept(args, op, all, off, p)
  {
    hide Flagged;
    if |args| > 0 {
      var head := if Flagged(op, all, off) then [] else [args[0]];
      KeptArgsOf(args[1..], op, all, off + 1, p);
      SomeKeptStep(args, op, all, off, p);
      MeetsConcat(head, KeptArgs(args[1..], op, all, off + 1), p);
      assert Meets(head, p) <==> p(args[0]) && !Flagged(op, all, off) by {
        assert p(args[0]) && !Flagged(op, all, off) ==> p(head[0]);
      }
    }
  }

  lemma SomeKeptStep<T>(args: seq<T>, op: Operator, all: seq<Lit>, off: nat, p: T -> bool)
    requires |args| > 0 && off + |args| <= |all|
    ensures SomeKept(args, op, all, off, p) <==>
      (p(args[0]) && !Flagged(op, all, off)) || SomeKept(args[1..], op, all, off + 1, p)
  {
    hide Flagged;
    if k :| 0 <= k < |args[1..]| && p(args[1..][k]) && !Flagged(op, all, (off + 1) + k) {
      assert args[k + 1] == args[1..][k] && !Flagged(op, all, off + (k + 1));
    }
    if k :| 0 <= k < |args| && p(args[k]) && !Flagged(op, all, off + k) {
      if k > 0 { assert args[1..][k - 1] == args[k] && !Flagged(op, all, (off + 1) + (k - 1)); }
      else { assert off + 0 == off; }
    }
  }

  /** The literals of the chain at e stand in all from off on. */
  ghost predicate Placed(lits: seq<Lit>, all: seq<Lit>, off: nat) {
    off + |lits| <= |all| && forall k :: 0 <= k < |lits| ==> all[off + k] == lits[k]
  }

  /** Some unflagged literal from lo to hi holds. */
  ghost predicate SomeUnflagged(op: Operator, all: seq<Lit>, lo: nat, hi: nat, name: string)
    requires lo <= hi <= |all|
  {
    exists k :: lo <= k < hi && !Flagged(op, all, k) && Holds(all[k], name)
  }

  lemma PlacedKept<T>(args: seq<T>, op: Operator, all: seq<Lit>, off: nat, p: T -> bool, name: string)
    requires off + |args| <= |all| && forall k :: 0 <= k < |args| ==> (p(args[k]) <==> Holds(all[off + k], name))
    ensures SomeKept(args, op, all, off, p) <==> SomeUnflagged(op, all, off, off + |args|, name)
  {
    hide Flagged, Holds;
    if k :| off <= k < off + |args| && !Flagged(op, all, k) && Holds(all[k], name) {
      assert p(args[k - off]) && !Flagged(op, all, off + (k - off));
    }
  }

  lemma KeptCallMeaning(x: Expr, op: Operator, all: seq<Lit>, off: nat, name: string)
    requires IsCall(x) && Placed(AtomsOfCall(x), all, off)
    ensures Evaluate(KeptCall(x, op, all, off), name) <==> SomeUnflagged(op, all, off, off + |AtomsOfCall(x)|, name)
  {
    if x.Is? { KeptIsMeaning(x, op, all, off, name); } else { KeptSubMeaning(x, op, all, off, name); }
  }

  lemma KeptIsMeaning(x: Expr, op: Operator, all: seq<Lit>, off: nat, name: string)
    requires x.Is? && Placed(AtomsOfCall(x), all, off)
    ensures Evaluate(KeptCall(x, op, all, off), name) <==> SomeUnflagged(op, all, off, off + |AtomsOfCall(x)|, name)
  {
    hide Flagged, DnsName, SomeKept, SomeUnflagged, KeptArgs;
    var kept := KeptArgs(x.domains, op, all, off);
    var p := (d: Domain) => DnsName(d) == name;
    KeptArgsOf(x.domains, op, all, off, p);
    forall k | 0 <= k < |x.domains| ensures p(x.domains[k]) <==> Holds(all[off + k], name) {
      assert all[off + k] == AtomsOfCall(x)[k];
    }
    PlacedKept(x.domains, op, all, off, p, name);
    assert forall i :: 0 <= i < |kept| ==> (p(kept[i]) <==> DnsName(kept[i]) == name);
  }

  lemma KeptSubMeaning(x: Expr, op: Operator, all: seq<Lit>, off: nat, name: string)
    requires x.Sub? && Placed(AtomsOfCall(x), all, off)
    ensures Evaluate(KeptCall(x, op, all, off), name) <==> SomeUnflagged(op, all, off, off + |AtomsOfCall(x)|, name)
  {
    hide Flagged, StrictlyUnder, SomeKept, SomeUnflagged, KeptArgs;
    var kept := KeptArgs(x.suffixes, op, all, off);
    var p := (t: Suffix) => StrictlyUnder(name, t);
    KeptArgsOf(x.suffixes, op, all, off, p);
    forall k | 0 <= k < |x.suffixes| ensures p(x.suffixes[k]) <==> Holds(all[off + k], name) {
      assert all[off + k] == AtomsOfCall(x)[k];
    }
    PlacedKept(x.suffixes, op, all, off, p, name);
    assert forall i :: 0 <= i < |kept| ==> (p(kept[i]) <==> StrictlyUnder(name, kept[i]));
  }

  lemma KeptConcat(op: Operator, all: seq<Lit>, lo: nat, mid: nat, hi: nat, name: string)
    requires lo <= mid <= hi <= |all|
    ensures KeptValue(op, all, lo, hi, name) ==
            Combine(op, KeptValue(op, all, lo, mid, name), KeptValue(op, all, mid, hi, name))
  {
    hide Flagged, Holds;
  }

  lemma OneTerm(op: Operator, x: Expr, name: string)
    ensures TermsValue(op, [x], name) == Evaluate(x, name) && TermsValue(op, [], name) == Neutral(op)
  {
    hide Evaluate;
    assert [x][0] == x;
  }

  /** One operand that contributes literals. */
  lemma KeptTermMeaning(x: Expr, op: Operator, all: seq<Lit>, off: nat, name: string)
    requires !IsChain(x, op) && |TermLits(x, op)| > 0 && Placed(TermLits(x, op), all, off)
    ensures TermsValue(op, KeptTerms(x, op, all, off), name) ==
            KeptValue(op, all, off, off + |TermLits(x, op)|, name)
  {
    if IsCall(x) {
      KeptCallTerm(x, op, all, off, name);
    } else {
      assert |TermLits(x, op)| == 1 && all[off + 0] == TermLits(x, op)[0];
      hide Flagged, Prune;
      TermMeaning(x, op, name);
      OneTerm(op, x, name);
    }
  }

  lemma KeptCallTerm(x: Expr, op: Operator, all: seq<Lit>, off: nat, name: string)
    requires IsCall(x) && |TermLits(x, op)| > 0 && Placed(TermLits(x, op), all, off)
    ensures TermsValue(op, KeptTerms(x, op, all, off), name) ==
            KeptValue(op, all, off, off + |TermLits(x, op)|, name)
  {
    assert TermLits(x, op) == AtomsOfCall(x);
    var call := KeptCall(x, op, all, off);
    assert KeptTerms(x, op, all, off) == if |AtomsOfCall(call)| == 0 then [] else [call];
    if op == AndOp { SingleCall(x, all, off); }
    hide Evaluate, KeptCall, AtomsOfCall, KeptTerms, TermLits, TermsValue, KeptValue, SomeUnflagged;
    KeptCallMeaning(x, op, all, off, name);
    OneTerm(op, call, name);
    if |AtomsOfCall(call)| == 0 { NoAtoms(call, name); }
    UnflaggedValue(op, all, off, off + |AtomsOfCall(x)|, name);
  }

  lemma NoAtoms(x: Expr, name: string)
    requires IsCall(x) && |AtomsOfCall(x)| == 0
    ensures !Evaluate(x, name)
  {
    CallMeaning(x, name);
  }

  lemma UnflaggedValue(op: Operator, all: seq<Lit>, lo: nat, hi: nat, name: string)
    requires lo < hi <= |all|
    ensures op == OrOp ==> KeptValue(op, all, lo, hi, name) == SomeUnflagged(op, all, lo, hi, name)
    ensures op == AndOp && hi == lo + 1 ==>
      KeptValue(op, all, lo, hi, name) == (Flagged(op, all, lo) || SomeUnflagged(op, all, lo, hi, name))
  {
    hide Flagged, Holds;
  }

  lemma SingleCall(x: Expr, all: seq<Lit>, off: nat)
    requires IsCall(x) && |TermLits(x, AndOp)| > 0 && off < |all|
    ensures |AtomsOfCall(x)| == 1
    ensures |AtomsOfCall(KeptCall(x, AndOp, all, off))| == if Flagged(AndOp, all, off) then 0 else 1
  {
    hide Flagged;
    if x.Is? {
      assert KeptArgs(x.domains[1..], AndOp, all, off + 1) == [];
    } else {
      assert KeptArgs(x.suffixes[1..], AndOp, all, off + 1) == [];
    }
  }

  lemma {:induction false} KeptTermsMeaning(e: Expr, op: Operator, all: seq<Lit>, off: nat, name: string)
    requires ParsedExpr(e) && Placed(ChainLits(e, op), all, off)
    ensures TermsValue(op, KeptTerms(e, op, all, off), name) ==
            Combine(op, RestValue(e, op, name), KeptValue(op, all, off, off + |ChainLits(e, op)|, name))
    decreases e, 1
  {
    hide Flagged, TermsValue, KeptValue, Evaluate, TermLits, Prune;
    if IsChain(e, op) {
      var l, r, mid := ChainLits(e.left, op), ChainLits(e.right, op), off + |ChainLits(e.left, op)|;
      PlacedParts(l, r, all, off);
      KeptTermsMeaning(e.left, op, all, off, name);
      KeptTermsMeaning(e.right, op, all, mid, name);
      TermsConcat(op, KeptTerms(e.left, op, all, off), KeptTerms(e.right, op, all, mid), name);
      KeptConcat(op, all, off, mid, mid + |r|, name);
    } else if |TermLits(e, op)| > 0 {
      KeptTermMeaning(e, op, all, off, name);
    } else {
      NothingKept(op, all, off, name);
      PruneKeepsMeaning(e, name);
      OneTerm(op, Prune(e), name);
      LiteralTerm(e, op, name);
    }
  }

  lemma NothingKept(op: Operator, all: seq<Lit>, off: nat, name: string)
    requires off <= |all|
    ensures KeptValue(op, all, off, off, name) == Neutral(op)
  {
  }

  lemma LiteralTerm(e: Expr, op: Operator, name: string)
    ensures e.Literal? ==> Evaluate(e, name) == e.value && Prune(e) == e && |TermLits(e, op)| == 0
  {
  }

  lemma PlacedParts(l: seq<Lit>, r: seq<Lit>, all: seq<Lit>, off: nat)
    requires Placed(l + r, all, off)
    ensures Placed(l, all, off) && Placed(r, all, off + |l|)
  {
    assert forall k :: 0 <= k < |l| ==> (l + r)[k] == l[k];
    assert forall k :: 0 <= k < |r| ==> (l + r)[|l| + k] == r[k] && all[off + (|l| + k)] == (l + r)[|l| + k];
  }

  lemma {:induction false} ChainParsed(e: Expr, op: Operator)
    requires ParsedExpr(e)
    ensures ParsedLits(ChainLits(e, op))
  {
    ChainLitsAre(e, op);
    FlattenParsed(e, op);
    ParsedOperands(Flatten(e, op));
  }

  /** Acting on all redundancy findings of all chains and calls together never changes a verdict. */
  lemma {:induction false} PruneKeepsMeaning(e: Expr, name: string)
    requires ParsedExpr(e)
    ensures Evaluate(Prune(e), name) == Evaluate(e, name)
    decreases e, 0
  {
    hide Evaluate, Prune, TermsValue, KeptValue, Placed, RestValue, KeptTerms;
    match e
    case Literal(_) => LiteralTerm(e, OrOp, name);
    case Is(_) => PrunedCall(e, name);
    case Sub(_) => PrunedCall(e, name);
    case Not(operand) =>
      PruneKeepsMeaning(operand, name);
      PrunedNot(e, name);
    case Binary(op, left, right) =>
      var all, l := ChainLits(e, op), ChainLits(left, op);
      WholePlaced(all);
      PlacedParts(l, ChainLits(right, op), all, 0);
      KeptTermsMeaning(left, op, all, 0, name);
      KeptTermsMeaning(right, op, all, |l|, name);
      PrunedChain(e, name);
  }

  lemma WholePlaced(all: seq<Lit>)
    ensures Placed(all, all, 0)
  {
  }

  lemma PrunedNot(e: Expr, name: string)
    requires e.Not? && Evaluate(Prune(e.operand), name) == Evaluate(e.operand, name)
    ensures Evaluate(Prune(e), name) == Evaluate(e, name)
  {
  }

  lemma PrunedCall(e: Expr, name: string)
    requires IsCall(e) && ParsedExpr(e)
    ensures Evaluate(Prune(e), name) == Evaluate(e, name)
  {
    hide RedundantInOr;
    CallReduces(e, name);
    KeptCallMeaning(e, OrOp, AtomsOfCall(e), 0, name);
  }

  lemma PrunedChain(e: Expr, name: string)
    requires e.Binary? && ParsedExpr(e)
    requires var all, mid := ChainLits(e, e.op), |ChainLits(e.left, e.op)|;
      && TermsValue(e.op, KeptTerms(e.left, e.op, all, 0), name) ==
         Combine(e.op, RestValue(e.left, e.op, name), KeptValue(e.op, all, 0, mid, name))
      && TermsValue(e.op, KeptTerms(e.right, e.op, all, mid), name) ==
         Combine(e.op, RestValue(e.right, e.op, name), KeptValue(e.op, all, mid, |all|, name))
    ensures Evaluate(Prune(e), name) == Evaluate(e, name)
  {
    var op, all, mid := e.op, ChainLits(e, e.op), |ChainLits(e.left, e.op)|;
    var l, r := KeptTerms(e.left, op, all, 0), KeptTerms(e.right, op, all, mid);
    assert Prune(e) == Join(op, l + r);
    assert RestValue(e, op, name) == Combine(op, RestValue(e.left, op, name), RestValue(e.right, op, name));
    hide Evaluate, TermsValue, KeptValue, RestValue, Prune, KeptTerms, ChainLits, Join;
    JoinMeaning(op, l + r, name);
    TermsConcat(op, l, r, name);
    KeptConcat(op, all, 0, mid, |all|, name);
    ChainMeaning(e, op, name);
    FlagsPreserve(e, op, name);
  }

  lemma FlagsPreserve(e: Expr, op: Operator, name: string)
    requires ParsedExpr(e)
    ensures var all := ChainLits(e, op); KeptValue(op, all, 0, |all|, name) == LitsValue(op, all, name)
  {
    var all := ChainLits(e, op);
    ChainParsed(e, op);
    hide ChainLits, Holds, RedundantInOr, RedundantInAnd, ParsedLits;
    if op == OrOp { OrRedundancyPreserves(all, name); } else { AndRedundancyPreserves(all, name); }
  }
}
