/** What the linter cannot miss: findings forced by what the operands mean, without looking at its literals. */
module Completeness {
  import opened Domains
  import opened DomainExpr
  import opened Lint

  /** A call of is or sub with one argument. */
  predicate OneArgument(x: Expr) {
    (x.Is? && |x.domains| == 1) || (x.Sub? && |x.suffixes| == 1)
  }

  predicate OneExclusion(x: Expr) {
    x.Not? && OneArgument(x.operand)
  }

  /** How many arguments a call has. */
  function ArgumentCount(x: Expr): nat
    requires IsCall(x)
  {
    if x.Is? then |x.domains| else |x.suffixes|
  }

  /** The set of names argument p of a call stands for. */
  function ArgumentSet(x: Expr, p: nat): AtomSet
    requires IsCall(x) && p < ArgumentCount(x)
  {
    if x.Is? then IsSet(x.domains[p]) else SubSet(x.suffixes[p])
  }

  /** The call with argument p alone. */
  function OnlyArgument(x: Expr, p: nat): (r: Expr)
    requires IsCall(x) && p < ArgumentCount(x)
    ensures OneArgument(r)
  {
    if x.Is? then Is([x.domains[p]]) else Sub([x.suffixes[p]])
  }

  // ---------------------------------------------------------------------------
  // Parts

  /** x stands somewhere in e. */
  predicate Occurs(x: Expr, e: Expr) {
    x == e || match e
              case Not(operand) => Occurs(x, operand)
              case Binary(_, left, right) => Occurs(x, left) || Occurs(x, right)
              case _ => false
  }

  /** The walk visits exactly what occurs. */
  lemma {:induction false} NodesAreParts(x: Expr, e: Expr)
    ensures x in Nodes(e) <==> Occurs(x, e)
  {
    match e
    case Not(operand) => NodesAreParts(x, operand);
    case Binary(_, left, right) =>
      NodesAreParts(x, left);
      NodesAreParts(x, right);
    case _ =>
  }

  lemma PartReports(x: Expr, e: Expr, f: Finding)
    requires Occurs(x, e) && NodeReports(x, f)
    ensures Reports(e, f)
  {
    hide NodeReports, Nodes;
    NodesAreParts(x, e);
  }

  // ---------------------------------------------------------------------------
  // Operands and their literals

  /** What the analysis makes of an operand that is a call with one argument, or the negation of one. */
  lemma OperandLiteral(x: Expr) returns (l: Lit)
    requires OneArgument(x) || OneExclusion(x)
    ensures Classify(x) == LitTerm(l) && l.negated == x.Not?
    ensures l.atom == ArgumentSet(if x.Not? then x.operand else x, 0)
    ensures forall name :: Evaluate(x, name) <==> Holds(l, name)
  {
    l := Classify(x).l;
    forall name ensures Evaluate(x, name) <==> Holds(l, name) { ClassifyMeaning(x, name); }
  }

  /** Operands at different places give literals at different places. */
  lemma {:induction false} LiteralPlace(operands: seq<Expr>, i: nat) returns (p: nat)
    requires i < |operands| && Classify(operands[i]).LitTerm?
    ensures p == |LitsOf(operands[..i])| < |LitsOf(operands)| && LitsOf(operands)[p] == Classify(operands[i]).l
  {
    hide Classify;
    p := |LitsOf(operands[..i])|;
    LitsPrefix(operands, i);
    LitsPrefix(operands, i + 1);
    assert operands[..i + 1][..i] == operands[..i];
    assert LitsOf(operands[..i + 1]) == LitsOf(operands[..i]) + [Classify(operands[i]).l];
  }

  lemma {:induction false} LitsPrefix(operands: seq<Expr>, i: nat)
    requires i <= |operands|
    ensures LitsOf(operands[..i]) <= LitsOf(operands)
  {
    hide Classify;
    if i < |operands| {
      LitsPrefix(operands[..|operands| - 1], i);
      assert operands[..|operands| - 1][..i] == operands[..i];
    } else {
      assert operands[..i] == operands;
    }
  }

  lemma DifferentPlaces(operands: seq<Expr>, i: nat, j: nat)
    requires i < j < |operands| && Classify(operands[i]).LitTerm?
    ensures |LitsOf(operands[..i])| < |LitsOf(operands[..j])|
  {
    hide Classify;
    LitsPrefix(operands[..j], i + 1);
    assert operands[..j][..i + 1] == operands[..i + 1] && operands[..i + 1][..i] == operands[..i];
  }

  lemma TwoPlaces(operands: seq<Expr>, i: nat, j: nat) returns (p: nat, q: nat)
    requires i < |operands| && j < |operands| && i != j
    requires Classify(operands[i]).LitTerm? && Classify(operands[j]).LitTerm?
    ensures p < |LitsOf(operands)| && q < |LitsOf(operands)| && p != q
    ensures LitsOf(operands)[p] == Classify(operands[i]).l && LitsOf(operands)[q] == Classify(operands[j]).l
  {
    hide Classify, LitsOf;
    p := LiteralPlace(operands, i);
    q := LiteralPlace(operands, j);
    if i < j { DifferentPlaces(operands, i, j); } else { DifferentPlaces(operands, j, i); }
  }

  lemma SeveralOperands(e: Expr, op: Operator)
    ensures |Flatten(e, op)| > 1 ==> e.Binary? && e.op == op
  {
  }

  // ---------------------------------------------------------------------------
  // Constants

  /** Two operands that no name satisfies together make a conjunction reported as never true. */
  lemma ContradictionReported(e: Expr, chain: Expr, i: nat, j: nat)
    requires Occurs(chain, e)
    requires var operands := Flatten(chain, AndOp);
      && i < |operands| && j < |operands| && i != j
      && OneArgument(operands[i]) && (OneArgument(operands[j]) || OneExclusion(operands[j]))
      && forall name :: !(Evaluate(operands[i], name) && Evaluate(operands[j], name))
    ensures Reports(e, Constant(false))
  {
    hide Evaluate, Classify, LitsOf, Flatten, Holds;
    var operands := Flatten(chain, AndOp);
    var a := OperandLiteral(operands[i]);
    var b := OperandLiteral(operands[j]);
    var p, q := TwoPlaces(operands, i, j);
    UnsatisfiableClash(a, b);
    assert HasClash(LitsOf(operands));
    SeveralOperands(chain, AndOp);
    assert ChainReports(chain, Constant(false));
    PartReports(chain, e, Constant(false));
  }

  lemma UnsatisfiableClash(a: Lit, b: Lit)
    requires !a.negated && forall name :: !(Holds(a, name) && Holds(b, name))
    ensures Clash(a, b)
  {
    hide Subsumes, DisjointSets, InSet;
    DisjointIsEmptyIntersection(a.atom, b.atom);
    SubsumesIsInclusion(b.atom, a.atom);
    if b.negated {
      forall name | InSet(a.atom, name) ensures InSet(b.atom, name) { assert !(Holds(a, name) && Holds(b, name)); }
    } else {
      forall name ensures !(InSet(a.atom, name) && InSet(b.atom, name)) { assert !(Holds(a, name) && Holds(b, name)); }
    }
  }

  /** An operand and an exclusion of which every name satisfies one make a disjunction reported as always true. */
  lemma TautologyReported(e: Expr, chain: Expr, i: nat, j: nat)
    requires Occurs(chain, e)
    requires var operands := Flatten(chain, OrOp);
      && i < |operands| && j < |operands|
      && OneArgument(operands[i]) && OneExclusion(operands[j])
      && forall name :: Evaluate(operands[i], name) || Evaluate(operands[j], name)
    ensures Reports(e, Constant(true))
  {
    hide Evaluate, Classify, LitsOf, Flatten, Holds;
    var operands := Flatten(chain, OrOp);
    var a := OperandLiteral(operands[i]);
    var b := OperandLiteral(operands[j]);
    var p, q := TwoPlaces(operands, i, j);
    ValidComplement(a, b);
    assert HasComplement(LitsOf(operands));
    SeveralOperands(chain, OrOp);
    assert ChainReports(chain, Constant(true));
    PartReports(chain, e, Constant(true));
  }

  lemma ValidComplement(a: Lit, b: Lit)
    requires !a.negated && b.negated && forall name :: Holds(a, name) || Holds(b, name)
    ensures Complement(a, b)
  {
    hide Subsumes, InSet;
    SubsumesIsInclusion(a.atom, b.atom);
    forall name | InSet(b.atom, name) ensures InSet(a.atom, name) { assert Holds(a, name) || Holds(b, name); }
  }

  /** A constant operand of a chain is reported: as deciding the chain, or as adding nothing to it. */
  lemma ConstantOperandReported(e: Expr, chain: Expr, op: Operator, i: nat)
    requires Occurs(chain, e)
    requires var operands := Flatten(chain, op); 1 < |operands| && i < |operands| && operands[i].Literal?
    ensures var v := Flatten(chain, op)[i].value;
      Reports(e, if v == (op == OrOp) then Constant(v) else RedundantConstant(v))
  {
    hide Flatten, LitsOf, ExpandedAll, HasClash, HasComplement;
    var operands := Flatten(chain, op);
    var v := operands[i].value;
    assert operands[i] in operands && Classify(operands[i]) == ConTerm(v);
    SeveralOperands(chain, op);
    var f := if v == (op == OrOp) then Constant(v) else RedundantConstant(v);
    assert ChainReports(chain, f);
    PartReports(chain, e, f);
  }

  // ---------------------------------------------------------------------------
  // Redundant operands and arguments

  /** A call implied by another in one conjunction is reported. */
  lemma ImpliedOperandReported(e: Expr, chain: Expr, i: nat, j: nat)
    requires Occurs(chain, e)
    requires var operands := Flatten(chain, AndOp);
      && i < |operands| && j < |operands| && i != j && OneArgument(operands[i]) && OneArgument(operands[j])
      && forall name :: Evaluate(operands[j], name) ==> Evaluate(operands[i], name)
    ensures Reports(e, RedundantLiteral(Lit(false, ArgumentSet(Flatten(chain, AndOp)[i], 0))))
  {
    hide Evaluate, Classify, LitsOf, Flatten, Holds;
    var operands := Flatten(chain, AndOp);
    var a := OperandLiteral(operands[i]);
    var b := OperandLiteral(operands[j]);
    var p, q := TwoPlaces(operands, i, j);
    SetInclusion(b, a);
    SomeImplied(LitsOf(operands), p, q);
    SeveralOperands(chain, AndOp);
    assert ChainReports(chain, RedundantLiteral(a));
    PartReports(chain, e, RedundantLiteral(a));
  }

  lemma SetInclusion(a: Lit, b: Lit)
    requires !a.negated && !b.negated && forall name :: Holds(a, name) ==> Holds(b, name)
    ensures Subsumes(b.atom, a.atom)
  {
    hide Subsumes, InSet;
    SubsumesIsInclusion(b.atom, a.atom);
    forall name | InSet(a.atom, name) ensures InSet(b.atom, name) { assert Holds(a, name) ==> Holds(b, name); }
  }

  /** Of two equal literals the later is flagged, of two different ones the weaker. */
  lemma SomeImplied(lits: seq<Lit>, p: nat, q: nat)
    requires p < |lits| && q < |lits| && p != q && !lits[p].negated && !lits[q].negated
    requires Subsumes(lits[p].atom, lits[q].atom)
    ensures DominatedInAnd(lits, lits[p])
  {
    hide Subsumes;
    if lits[p].atom == lits[q].atom && p < q {
      assert ImpliedBy(lits, q, p) && lits[q] == lits[p];
    } else {
      assert ImpliedBy(lits, p, q);
    }
  }

  lemma SomeCovered(lits: seq<Lit>, p: nat, q: nat)
    requires p < |lits| && q < |lits| && p != q && !lits[p].negated && !lits[q].negated
    requires Subsumes(lits[q].atom, lits[p].atom)
    ensures DominatedInOr(lits, lits[p])
  {
    hide Subsumes;
    if lits[p].atom == lits[q].atom && p < q {
      assert CoveredBy(lits, q, p) && lits[q] == lits[p];
    } else {
      assert CoveredBy(lits, p, q);
    }
  }

  /** Where the literals of operand i begin. */
  lemma {:induction false} ExpandedPrefix(operands: seq<Expr>, i: nat)
    requires i <= |operands|
    ensures ExpandedAll(operands[..i]) <= ExpandedAll(operands)
  {
    hide Expanded;
    if i < |operands| {
      ExpandedPrefix(operands[..|operands| - 1], i);
      assert operands[..|operands| - 1][..i] == operands[..i];
    } else {
      assert operands[..i] == operands;
    }
  }

  /** Argument p of operand i is literal ArgumentPlace of the disjunction. */
  function ArgumentPlace(operands: seq<Expr>, i: nat, p: nat): nat
    requires i < |operands|
  {
    |ExpandedAll(operands[..i])| + p
  }

  lemma ArgumentAt(operands: seq<Expr>, i: nat, p: nat)
    requires i < |operands| && IsCall(operands[i]) && p < ArgumentCount(operands[i])
    ensures var k := ArgumentPlace(operands, i, p);
      && k < |ExpandedAll(operands[..i + 1])| <= |ExpandedAll(operands)|
      && ExpandedAll(operands)[k] == Lit(false, ArgumentSet(operands[i], p))
  {
    hide ExpandedAll, AtomsOfCall;
    ExpandedPrefix(operands, i + 1);
    ExpandedStep(operands, i);
    ArgumentLiteral(operands[i], p);
  }

  lemma ExpandedStep(operands: seq<Expr>, i: nat)
    requires i < |operands| && IsCall(operands[i])
    ensures ExpandedAll(operands[..i + 1]) == ExpandedAll(operands[..i]) + AtomsOfCall(operands[i])
  {
    assert operands[..i + 1][..i] == operands[..i];
  }

  lemma ArgumentLiteral(x: Expr, p: nat)
    requires IsCall(x) && p < ArgumentCount(x)
    ensures |AtomsOfCall(x)| == ArgumentCount(x) && AtomsOfCall(x)[p] == Lit(false, ArgumentSet(x, p))
  {
  }

  /** The place lies among the literals of its own operand. */
  lemma PlaceBounds(operands: seq<Expr>, i: nat, p: nat, j: nat)
    requires i < |operands| && IsCall(operands[i]) && p < ArgumentCount(operands[i]) && i < j <= |operands|
    ensures |ExpandedAll(operands[..i])| <= ArgumentPlace(operands, i, p) < |ExpandedAll(operands[..j])|
  {
    hide ExpandedAll, AtomsOfCall;
    ExpandedStep(operands, i);
    ArgumentLiteral(operands[i], p);
    ExpandedPrefix(operands[..j], i + 1);
    assert operands[..j][..i + 1] == operands[..i + 1];
  }

  lemma ArgumentPlacesDiffer(operands: seq<Expr>, i: nat, p: nat, j: nat, q: nat)
    requires i < |operands| && IsCall(operands[i]) && p < ArgumentCount(operands[i])
    requires j < |operands| && IsCall(operands[j]) && q < ArgumentCount(operands[j]) && (i != j || p != q)
    ensures ArgumentPlace(operands, i, p) != ArgumentPlace(operands, j, q)
  {
    hide ExpandedAll;
    if i < j { PlaceBounds(operands, i, p, j); } else if j < i { PlaceBounds(operands, j, q, i); }
  }

  /** An argument whose names another argument of the same disjunction, or of the same call, also has, is reported. */
  lemma CoveredArgumentReported(e: Expr, chain: Expr, i: nat, p: nat, j: nat, q: nat)
    requires Occurs(chain, e)
    requires var operands := Flatten(chain, OrOp);
      && i < |operands| && IsCall(operands[i]) && p < ArgumentCount(operands[i])
      && j < |operands| && IsCall(operands[j]) && q < ArgumentCount(operands[j]) && (i != j || p != q)
      && forall name :: Evaluate(OnlyArgument(operands[i], p), name) ==> Evaluate(OnlyArgument(operands[j], q), name)
    ensures Reports(e, RedundantLiteral(Lit(false, ArgumentSet(Flatten(chain, OrOp)[i], p))))
  {
    hide Evaluate, Classify, ExpandedAll, Flatten, Holds;
    var operands := Flatten(chain, OrOp);
    var x, y := OnlyArgument(operands[i], p), OnlyArgument(operands[j], q);
    var a := OperandLiteral(x);
    var b := OperandLiteral(y);
    SetInclusion(a, b);
    ArgumentAt(operands, i, p);
    ArgumentAt(operands, j, q);
    ArgumentPlacesDiffer(operands, i, p, j, q);
    SomeCovered(ExpandedAll(operands), ArgumentPlace(operands, i, p), ArgumentPlace(operands, j, q));
    if chain.Binary? && chain.op == OrOp {
      assert ChainReports(chain, RedundantLiteral(a));
    } else {
      LoneOperand(chain);
      assert CallReports(chain, RedundantLiteral(a));
    }
    PartReports(chain, e, RedundantLiteral(a));
  }

  lemma LoneOperand(x: Expr)
    requires !IsChain(x, OrOp)
    ensures Flatten(x, OrOp) == [x] && ExpandedAll([x]) == Expanded(x)
  {
    assert [x][..0] == [];
  }

  // ---------------------------------------------------------------------------
  // Static values

  /** How many calls e has. */
  function CallCount(e: Expr): nat {
    match e
    case Literal(_) => 0
    case Not(operand) => CallCount(operand)
    case Binary(_, left, right) => CallCount(left) + CallCount(right)
    case _ => 1
  }

  /** The value of e when its calls, from left to right, have the given values, except that sub(.) holds. */
  predicate ValueUnder(e: Expr, values: seq<bool>)
    requires |values| == CallCount(e)
  {
    match e
    case Literal(value) => value
    case Is(_) => values[0]
    case Sub(suffixes) => suffixes == [""] || values[0]
    case Not(operand) => !ValueUnder(operand, values)
    case Binary(op, left, right) =>
      var n := CallCount(left);
      if op == AndOp then ValueUnder(left, values[..n]) && ValueUnder(right, values[n..])
      else ValueUnder(left, values[..n]) || ValueUnder(right, values[n..])
  }

  lemma {:induction false} KnownValue(e: Expr, values: seq<bool>)
    requires |values| == CallCount(e) && ConstValue(e).Known?
    ensures ValueUnder(e, values) == ConstValue(e).value
  {
    match e
    case Not(operand) => KnownValue(operand, values);
    case Binary(_, left, right) =>
      var n := CallCount(left);
      if ConstValue(left).Known? { KnownValue(left, values[..n]); }
      if ConstValue(right).Known? { KnownValue(right, values[n..]); }
    case _ =>
  }

  /** An expression without a static value can take either value. */
  lemma {:induction false} UnknownValue(e: Expr, v: bool) returns (values: seq<bool>)
    requires ConstValue(e).Unknown?
    ensures |values| == CallCount(e) && ValueUnder(e, values) == v
  {
    match e
    case Not(operand) => values := UnknownValue(operand, !v);
    case Binary(op, left, right) =>
      var n := CallCount(left);
      var l, r := seq(n, _ => v), seq(CallCount(right), _ => v);
      if ConstValue(left).Unknown? { l := UnknownValue(left, v); } else { KnownValue(left, l); }
      if ConstValue(right).Unknown? { r := UnknownValue(right, v); } else { KnownValue(right, r); }
      values := l + r;
      assert values[..n] == l && values[n..] == r;
    case _ => values := [v];
  }

  /** The static value is v exactly when v is the value whatever the calls other than sub(.) say. */
  lemma ConstValueIff(e: Expr, v: bool)
    ensures ConstValue(e) == Known(v) <==> forall values | |values| == CallCount(e) :: ValueUnder(e, values) == v
  {
    hide ConstValue, ValueUnder, CallCount;
    if ConstValue(e).Known? {
      forall values | |values| == CallCount(e)
        ensures ValueUnder(e, values) == ConstValue(e).value { KnownValue(e, values); }
      var some := seq(CallCount(e), _ => true);
      assert ValueUnder(e, some) == ConstValue(e).value;
    } else {
      var other := UnknownValue(e, !v);
    }
  }

  /** sub(.) is the one call with one argument that holds of every name but the root. */
  lemma AlwaysTrueIff(x: Expr)
    requires OneArgument(x)
    ensures IsAlwaysTrueAtom(x) <==> forall name | name != "" :: Evaluate(x, name)
  {
    if IsAlwaysTrueAtom(x) {
      forall name | name != "" ensures Evaluate(x, name) { assert StrictlyUnder(name, x.suffixes[0]); }
    } else if x.Is? {
      var name := if DnsName(x.domains[0]) == "x" then "y" else "x";
      assert !Evaluate(x, name);
    } else {
      assert x.suffixes == [x.suffixes[0]];
      assert !Evaluate(x, x.suffixes[0]);
    }
  }

  /** An expression with sub(.) in it that has one value whatever its other calls say is reported as constant. */
  lemma StaticValueReported(e: Expr, v: bool)
    requires Occurs(Sub([""]), e)
    requires forall values | |values| == CallCount(e) :: ValueUnder(e, values) == v
    ensures Reports(e, Constant(v))
  {
    hide Nodes, NodeReports, ConstValue;
    ConstValueIff(e, v);
    NodesAreParts(Sub([""]), e);
    assert IsAlwaysTrueAtom(Sub([""]));
    assert ContainsAlwaysTrueAtom(e);
  }
}
