/** The semantic lint of domain expressions: what is/sub atoms imply about each other. */
module Lint {
  import opened Domains
  import opened DomainExpr

  /** The set of names a single-argument call denotes. */
  datatype AtomSet = IsSet(domain: Domain) | SubSet(suffix: Suffix)

  datatype Lit = Lit(negated: bool, atom: AtomSet)

  predicate InSet(a: AtomSet, name: string) {
    match a
    case IsSet(d) => DnsName(d) == name
    case SubSet(s) => StrictlyUnder(name, s)
  }

  predicate Holds(l: Lit, name: string) {
    InSet(l.atom, name) != l.negated
  }

  /** The name or suffix an atom mentions. */
  function NameOf(a: AtomSet): string {
    if a.IsSet? then DnsName(a.domain) else a.suffix
  }

  /** Atoms come from parsed domains. */
  predicate ParsedAtom(a: AtomSet) {
    a.IsSet? ==> Parsed(a.domain)
  }

  predicate Subsumes(p: AtomSet, q: AtomSet) {
    match (p, q)
    case (IsSet(d), IsSet(e)) => DnsName(e) == DnsName(d)
    case (IsSet(_), SubSet(_)) => false
    case (SubSet(s), IsSet(d)) => StrictlyUnder(DnsName(d), s)
    case (SubSet(s), SubSet(t)) => t == s || StrictlyUnder(t, s)
  }

  predicate DisjointSets(p: AtomSet, q: AtomSet) {
    match (p, q)
    case (IsSet(d), IsSet(e)) => DnsName(d) != DnsName(e)
    case (IsSet(d), SubSet(s)) => !StrictlyUnder(DnsName(d), s)
    case (SubSet(s), IsSet(d)) => !StrictlyUnder(DnsName(d), s)
    case (SubSet(s), SubSet(t)) => s != t && !StrictlyUnder(s, t) && !StrictlyUnder(t, s)
  }

  // ---------------------------------------------------------------------------
  // The two relations decide inclusion and disjointness

  lemma SubsumesSound(p: AtomSet, q: AtomSet, name: string)
    requires Subsumes(p, q) && InSet(q, name)
    ensures InSet(p, name)
  {
    if p.SubSet? && q.SubSet? && p != q { UnderTransitive(name, q.suffix, p.suffix); }
  }

  /** Where subsumes fails, some name separates the sets; a proper one when the atom names a proper name. */
  lemma Separation(p: AtomSet, q: AtomSet) returns (name: string)
    requires !Subsumes(p, q)
    ensures InSet(q, name) && !InSet(p, name)
    ensures IsName(NameOf(q)) || q == SubSet("") ==> IsName(name)
  {
    match q
    case IsSet(d) => name := DnsName(d);
    case SubSet(t) =>
      ChildIsUnder("x", t);
      ChildIsUnder("y", t);
      if t == "" || IsName(t) { ChildIsName("x", t); ChildIsName("y", t); }
      name := Child("x", t);
      if p.SubSet? {
        if StrictlyUnder(name, p.suffix) { UnderChild("x", t, p.suffix); }
      } else if DnsName(p.domain) == name {
        assert Child("x", t)[0] == 'x' && Child("y", t)[0] == 'y';
        name := Child("y", t);
      }
  }

  lemma SubsumesIsInclusion(p: AtomSet, q: AtomSet)
    ensures Subsumes(p, q) <==> forall name :: InSet(q, name) ==> InSet(p, name)
  {
    if Subsumes(p, q) {
      forall name | InSet(q, name) ensures InSet(p, name) { SubsumesSound(p, q, name); }
    } else {
      var name := Separation(p, q);
    }
  }

  lemma DisjointSound(p: AtomSet, q: AtomSet, name: string)
    requires InSet(p, name) && InSet(q, name)
    ensures !DisjointSets(p, q)
  {
    if p.SubSet? && q.SubSet? {
      if |p.suffix| <= |q.suffix| { UnderComparable(name, q.suffix, p.suffix); }
      else { UnderComparable(name, p.suffix, q.suffix); }
    }
  }

  lemma CommonName(p: AtomSet, q: AtomSet) returns (name: string)
    requires !DisjointSets(p, q)
    ensures InSet(p, name) && InSet(q, name)
  {
    if p.IsSet? {
      name := DnsName(p.domain);
    } else if q.IsSet? {
      name := DnsName(q.domain);
    } else {
      var deep := if p.suffix == q.suffix || StrictlyUnder(p.suffix, q.suffix) then p.suffix else q.suffix;
      name := Child("x", deep);
      ChildIsUnder("x", deep);
      if p.suffix != q.suffix {
        UnderTransitive(name, deep, if deep == p.suffix then q.suffix else p.suffix);
      }
    }
  }

  lemma DisjointIsEmptyIntersection(p: AtomSet, q: AtomSet)
    ensures DisjointSets(p, q) <==> forall name :: !(InSet(p, name) && InSet(q, name))
  {
    if DisjointSets(p, q) {
      forall name ensures !(InSet(p, name) && InSet(q, name)) {
        if InSet(p, name) && InSet(q, name) { DisjointSound(p, q, name); }
      }
    } else {
      var name := CommonName(p, q);
    }
  }

  // ---------------------------------------------------------------------------
  // Contradictions and tautologies

  /** a and b can never hold together. */
  predicate Clash(a: Lit, b: Lit) {
    || (!a.negated && !b.negated && DisjointSets(a.atom, b.atom))
    || (!a.negated && b.negated && Subsumes(b.atom, a.atom))
  }

  /** a or b always holds. */
  predicate Complement(a: Lit, b: Lit) {
    !a.negated && b.negated && Subsumes(a.atom, b.atom)
  }

  predicate HasClash(lits: seq<Lit>) {
    exists i, j :: 0 <= i < |lits| && 0 <= j < |lits| && i != j && Clash(lits[i], lits[j])
  }

  predicate HasComplement(lits: seq<Lit>) {
    exists i, j :: 0 <= i < |lits| && 0 <= j < |lits| && i != j && Complement(lits[i], lits[j])
  }

  method Contradictory(lits: seq<Lit>) returns (found: bool)
    ensures found <==> HasClash(lits)
  {
    hide Clash;
    for i := 0 to |lits|
      invariant forall k, j :: 0 <= k < i && 0 <= j < |lits| && k != j ==> !Clash(lits[k], lits[j])
    {
      for j := 0 to |lits|
        invariant forall k :: 0 <= k < j && i != k ==> !Clash(lits[i], lits[k])
      {
        if i != j && Clash(lits[i], lits[j]) { return true; }
      }
    }
    return false;
  }

  method Tautological(lits: seq<Lit>) returns (found: bool)
    ensures found <==> HasComplement(lits)
  {
    hide Complement;
    for i := 0 to |lits|
      invariant forall k, j :: 0 <= k < i && 0 <= j < |lits| && k != j ==> !Complement(lits[k], lits[j])
    {
      for j := 0 to |lits|
        invariant forall k :: 0 <= k < j && i != k ==> !Complement(lits[i], lits[k])
      {
        if i != j && Complement(lits[i], lits[j]) { return true; }
      }
    }
    return false;
  }

  predicate AllHold(lits: seq<Lit>, name: string) {
    forall i :: 0 <= i < |lits| ==> Holds(lits[i], name)
  }

  predicate SomeHolds(lits: seq<Lit>, name: string) {
    exists i :: 0 <= i < |lits| && Holds(lits[i], name)
  }

  lemma ClashSound(a: Lit, b: Lit, name: string)
    requires Clash(a, b)
    ensures !(Holds(a, name) && Holds(b, name))
  {
    if Holds(a, name) && Holds(b, name) {
      if b.negated { SubsumesSound(b.atom, a.atom, name); } else { DisjointSound(a.atom, b.atom, name); }
    }
  }

  /** A label longer than every name the literals mention. */
  function FreshLabel(lits: seq<Lit>): (first: string)
    ensures first != "" && '.' !in first
    ensures forall i :: 0 <= i < |lits| ==> |first| > |NameOf(lits[i].atom)|
  {
    if |lits| == 0 then "x"
    else
      var rest := FreshLabel(lits[1..]);
      var n := |NameOf(lits[0].atom)| + 1;
      if |rest| >= n then rest else seq(n, i => 'x')
  }

  /** A positive literal no other positive literal's name is longer than; an is-atom if there is one. */
  predicate Deepest(lits: seq<Lit>, k: nat) {
    && k < |lits| && !lits[k].negated
    && (lits[k].atom.SubSet? ==> forall i :: 0 <= i < |lits| && !lits[i].negated ==>
      lits[i].atom.SubSet? && |NameOf(lits[i].atom)| <= |NameOf(lits[k].atom)|)
  }

  lemma {:induction false} FindDeepest(lits: seq<Lit>, p: nat) returns (k: nat)
    requires p < |lits| && !lits[p].negated
    ensures Deepest(lits, k)
  {
    if i :| 0 <= i < |lits| && !lits[i].negated && lits[i].atom.IsSet? {
      return i;
    }
    k := p;
    for i := 0 to |lits|
      invariant k < |lits| && !lits[k].negated
      invariant forall j :: 0 <= j < i && !lits[j].negated ==> |NameOf(lits[j].atom)| <= |NameOf(lits[k].atom)|
    {
      if !lits[i].negated && |NameOf(lits[i].atom)| > |NameOf(lits[k].atom)| { k := i; }
    }
  }

  /** A model of a clash-free conjunction with a positive literal. */
  lemma Model(lits: seq<Lit>, p: nat) returns (name: string)
    requires p < |lits| && !lits[p].negated && !HasClash(lits)
    ensures AllHold(lits, name)
  {
    var k := FindDeepest(lits, p);
    var a := lits[k].atom;
    var first := FreshLabel(lits);
    name := if a.IsSet? then DnsName(a.domain) else Child(first, a.suffix);
    if a.SubSet? { ChildIsUnder(first, a.suffix); }
    forall i | 0 <= i < |lits| ensures Holds(lits[i], name) {
      if i != k {
        assert !Clash(lits[k], lits[i]);
        if a.SubSet? { DeepModel(a.suffix, first, lits[i]); }
      }
    }
  }

  lemma DeepModel(s: Suffix, first: string, l: Lit)
    requires first != "" && '.' !in first && |first| > |NameOf(l.atom)|
    requires !Clash(Lit(false, SubSet(s)), l)
    requires !l.negated ==> l.atom.SubSet? && |NameOf(l.atom)| <= |s|
    ensures Holds(l, Child(first, s))
  {
    var name := Child(first, s);
    ChildIsUnder(first, s);
    if l.negated {
      if l.atom.SubSet? {
        if StrictlyUnder(name, l.atom.suffix) { UnderChild(first, s, l.atom.suffix); }
      }
    } else if l.atom.suffix != s {
      if StrictlyUnder(l.atom.suffix, s) { UnderShorter(l.atom.suffix, s); }
      UnderTransitive(name, s, l.atom.suffix);
    }
  }

  /** contradictory decides unsatisfiability of every conjunction with a positive literal. */
  lemma ContradictoryIffUnsatisfiable(lits: seq<Lit>, p: nat)
    requires p < |lits| && !lits[p].negated
    ensures HasClash(lits) <==> forall name :: !AllHold(lits, name)
  {
    if HasClash(lits) {
      var i, j :| 0 <= i < |lits| && 0 <= j < |lits| && i != j && Clash(lits[i], lits[j]);
      forall name ensures !AllHold(lits, name) { ClashSound(lits[i], lits[j], name); }
    } else {
      var name := Model(lits, p);
    }
  }

  lemma ContradictorySound(lits: seq<Lit>, name: string)
    requires HasClash(lits)
    ensures !AllHold(lits, name)
  {
    var i, j :| 0 <= i < |lits| && 0 <= j < |lits| && i != j && Clash(lits[i], lits[j]);
    ClashSound(lits[i], lits[j], name);
  }

  lemma TautologicalSound(lits: seq<Lit>, name: string)
    requires HasComplement(lits)
    ensures SomeHolds(lits, name)
  {
    var i, j :| 0 <= i < |lits| && 0 <= j < |lits| && i != j && Complement(lits[i], lits[j]);
    if !Holds(lits[j], name) { SubsumesSound(lits[i].atom, lits[j].atom, name); }
  }

  function Flip(lits: seq<Lit>): seq<Lit> {
    seq(|lits|, i requires 0 <= i < |lits| => Lit(!lits[i].negated, lits[i].atom))
  }

  /** Two exclusions that rule out disjoint sets: always true together, and not reported. */
  predicate HasDisjointExclusions(lits: seq<Lit>) {
    exists i, j :: 0 <= i < |lits| && 0 <= j < |lits| && i != j
      && lits[i].negated && lits[j].negated && DisjointSets(lits[i].atom, lits[j].atom)
  }

  /** A disjunction with an exclusion is valid exactly when tautological reports it or two exclusions are disjoint. */
  lemma ValidIffTautological(lits: seq<Lit>, p: nat)
    requires p < |lits| && lits[p].negated
    ensures (forall name :: SomeHolds(lits, name)) <==> HasComplement(lits) || HasDisjointExclusions(lits)
  {
    hide DisjointSets, Subsumes;
    var flipped := Flip(lits);
    ContradictoryIffUnsatisfiable(flipped, p);
    forall name ensures AllHold(flipped, name) <==> !SomeHolds(lits, name) {
      assert forall i :: 0 <= i < |lits| ==> (Holds(flipped[i], name) <==> !Holds(lits[i], name));
    }
    FlippedClash(lits);
  }

  /** `!is(a.b) || !is(c.d)` holds everywhere, and nothing is reported of it. */
  lemma DisjointExclusionsMissed() returns (e: Expr)
    ensures e == Binary(OrOp, Not(Is([FQDN("a.b")])), Not(Is([FQDN("c.d")])))
    ensures (forall name :: Evaluate(e, name)) && forall f :: !Reports(e, f)
  {
    var a, b := Is([FQDN("a.b")]), Is([FQDN("c.d")]);
    e := Binary(OrOp, Not(a), Not(b));
    assert FQDN("a.b").name[0] != FQDN("c.d").name[0];
    forall name ensures Evaluate(e, name) { ExcludesOne(FQDN("a.b"), FQDN("c.d"), name); }
    hide ChainReports;
    ExclusionChainSilent(FQDN("a.b"), FQDN("c.d"));
    assert Nodes(Not(a)) == [Not(a), a] && Nodes(Not(b)) == [Not(b), b];
    assert Nodes(e) == [e, Not(a), a, Not(b), b];
  }

  lemma ExclusionChainSilent(a: Domain, b: Domain)
    ensures forall f :: !ChainReports(Binary(OrOp, Not(Is([a])), Not(Is([b]))), f)
  {
    var x, y := Not(Is([a])), Not(Is([b]));
    assert Flatten(x, OrOp) == [x] && Flatten(y, OrOp) == [y];
    TwoTerms(x, y, Lit(true, IsSet(a)), Lit(true, IsSet(b)));
  }

  lemma ExcludesOne(a: Domain, b: Domain, name: string)
    requires DnsName(a) != DnsName(b)
    ensures Evaluate(Binary(OrOp, Not(Is([a])), Not(Is([b]))), name)
  {
    hide DnsName;
    assert Evaluate(Is([a]), name) ==> DnsName(a) == name;
    assert Evaluate(Is([b]), name) ==> DnsName(b) == name;
  }

  lemma TwoTerms(x: Expr, y: Expr, a: Lit, b: Lit)
    requires Classify(x) == LitTerm(a) && Classify(y) == LitTerm(b) && Expanded(x) == [a] && Expanded(y) == [b]
    ensures LitsOf([x] + [y]) == [a, b] && ExpandedAll([x] + [y]) == [a, b]
  {
    hide Classify, Expanded;
    var both := [x] + [y];
    assert [x][..0] == [] && LitsOf([x]) == [] + [a] && ExpandedAll([x]) == [] + [a];
    assert |both| == 2 && both[..1] == [x] && both[1] == y;
    assert LitsOf(both) == [a] + [b] && ExpandedAll(both) == [a] + [b];
  }

  lemma FlippedClash(lits: seq<Lit>)
    ensures HasClash(Flip(lits)) <==> HasComplement(lits) || HasDisjointExclusions(lits)
  {
    hide DisjointSets, Subsumes;
    var flipped := Flip(lits);
    if HasComplement(lits) {
      var i, j :| 0 <= i < |lits| && 0 <= j < |lits| && i != j && Complement(lits[i], lits[j]);
      assert Clash(flipped[j], flipped[i]);
    }
    if HasDisjointExclusions(lits) {
      var i, j :| 0 <= i < |lits| && 0 <= j < |lits| && i != j
        && lits[i].negated && lits[j].negated && DisjointSets(lits[i].atom, lits[j].atom);
      assert Clash(flipped[i], flipped[j]);
    }
    if HasClash(flipped) {
      var i, j :| 0 <= i < |flipped| && 0 <= j < |flipped| && i != j && Clash(flipped[i], flipped[j]);
      assert lits[i].negated;
      if !lits[j].negated { assert Complement(lits[j], lits[i]); }
    }
  }

  // ---------------------------------------------------------------------------
  // Redundant literals

  /** What orRedundancies tests of i and j: i adds nothing to a disjunction with j. */
  predicate CoveredBy(lits: seq<Lit>, i: nat, j: nat)
    requires i < |lits| && j < |lits|
  {
    i != j && !lits[i].negated && !lits[j].negated
    && Subsumes(lits[j].atom, lits[i].atom) && (lits[i].atom != lits[j].atom || i >= j)
  }

  /** What analyzeConjunction tests: i adds nothing to a conjunction with j. */
  predicate ImpliedBy(lits: seq<Lit>, i: nat, j: nat)
    requires i < |lits| && j < |lits|
  {
    i != j && !lits[i].negated && !lits[j].negated
    && Subsumes(lits[i].atom, lits[j].atom) && (lits[i].atom != lits[j].atom || i >= j)
  }

  predicate RedundantInOr(lits: seq<Lit>, i: nat)
    requires i < |lits|
  {
    exists j :: 0 <= j < |lits| && CoveredBy(lits, i, j)
  }

  predicate RedundantInAnd(lits: seq<Lit>, i: nat)
    requires i < |lits|
  {
    exists j :: 0 <= j < |lits| && ImpliedBy(lits, i, j)
  }

  predicate ParsedLits(lits: seq<Lit>) {
    forall i :: 0 <= i < |lits| ==> ParsedAtom(lits[i].atom)
  }

  /** A dominator's name is shorter, or the sets are equal. */
  lemma SubsumesShortens(p: AtomSet, q: AtomSet)
    requires Subsumes(p, q) && ParsedAtom(p) && ParsedAtom(q)
    ensures p == q || |NameOf(p)| < |NameOf(q)|
  {
    match (p, q)
    case (IsSet(d), IsSet(e)) => ParsedByName(d, e);
    case (SubSet(s), IsSet(d)) => UnderShorter(DnsName(d), s);
    case (SubSet(s), SubSet(t)) => if s != t { UnderShorter(t, s); }
    case (IsSet(_), SubSet(_)) => 
  }

  /** Every literal that holds has an unflagged dominator that holds: domination is acyclic. */
  lemma {:induction false} OrSurvivor(lits: seq<Lit>, i: nat, name: string) returns (k: nat)
    requires ParsedLits(lits) && i < |lits| && Holds(lits[i], name)
    ensures k < |lits| && !RedundantInOr(lits, k) && Holds(lits[k], name)
    decreases |NameOf(lits[i].atom)|, i
  {
    if RedundantInOr(lits, i) {
      var j :| 0 <= j < |lits| && CoveredBy(lits, i, j);
      SubsumesSound(lits[j].atom, lits[i].atom, name);
      SubsumesShortens(lits[j].atom, lits[i].atom);
      k := OrSurvivor(lits, j, name);
    } else {
      k := i;
    }
  }

  function LongestName(lits: seq<Lit>): (n: nat)
    ensures forall i :: 0 <= i < |lits| ==> |NameOf(lits[i].atom)| <= n
  {
    if |lits| == 0 then 0
    else
      var rest := LongestName(lits[1..]);
      if |NameOf(lits[0].atom)| > rest then |NameOf(lits[0].atom)| else rest
  }

  lemma {:induction false} AndSurvivor(lits: seq<Lit>, i: nat, name: string) returns (k: nat)
    requires ParsedLits(lits) && i < |lits| && !Holds(lits[i], name)
    ensures k < |lits| && !RedundantInAnd(lits, k) && !Holds(lits[k], name)
    decreases LongestName(lits) - |NameOf(lits[i].atom)|, i
  {
    if RedundantInAnd(lits, i) {
      var j :| 0 <= j < |lits| && ImpliedBy(lits, i, j);
      if InSet(lits[j].atom, name) { SubsumesSound(lits[i].atom, lits[j].atom, name); }
      SubsumesShortens(lits[i].atom, lits[j].atom);
      k := AndSurvivor(lits, j, name);
    } else {
      k := i;
    }
  }

  /** Dropping every flagged literal at once preserves the disjunction. */
  lemma OrRedundancyPreserves(lits: seq<Lit>, name: string)
    requires ParsedLits(lits)
    ensures SomeHolds(lits, name) <==> exists k :: 0 <= k < |lits| && !RedundantInOr(lits, k) && Holds(lits[k], name)
  {
    if SomeHolds(lits, name) {
      var i :| 0 <= i < |lits| && Holds(lits[i], name);
      var k := OrSurvivor(lits, i, name);
    }
  }

  /** Dropping every flagged literal at once preserves the conjunction. */
  lemma AndRedundancyPreserves(lits: seq<Lit>, name: string)
    requires ParsedLits(lits)
    ensures AllHold(lits, name) <==> forall k :: 0 <= k < |lits| && !RedundantInAnd(lits, k) ==> Holds(lits[k], name)
  {
    if !AllHold(lits, name) {
      var i :| 0 <= i < |lits| && !Holds(lits[i], name);
      var k := AndSurvivor(lits, i, name);
    }
  }

  /** Unparsed domains would break it: two domains with one ASCII name flag each other. */
  lemma UnparsedCounterexample() returns (lits: seq<Lit>, name: string)
    ensures !ParsedLits(lits)
    ensures SomeHolds(lits, name) && forall k :: 0 <= k < |lits| ==> RedundantInOr(lits, k)
  {
    var a, b := Lit(false, IsSet(FQDN("*"))), Lit(false, IsSet(Wildcard("")));
    lits, name := [a, b], "*";
    assert lits[0] == a && lits[1] == b;
    assert Holds(lits[0], name);
    assert CoveredBy(lits, 0, 1) && CoveredBy(lits, 1, 0);
  }

  // ---------------------------------------------------------------------------
  // Chains of operands

  datatype Term = LitTerm(l: Lit) | ConTerm(value: bool) | Opaque

  /** A single-argument call, possibly negated, as a literal. */
  function AsLiteral(e: Expr, negated: bool): Term {
    match e
    case Is(domains) => if |domains| == 1 then LitTerm(Lit(negated, IsSet(domains[0]))) else Opaque
    case Sub(suffixes) => if |suffixes| == 1 then LitTerm(Lit(negated, SubSet(suffixes[0]))) else Opaque
    case _ => Opaque
  }

  function Classify(e: Expr): Term {
    match e
    case Literal(value) => ConTerm(value)
    case Is(_) => AsLiteral(e, false)
    case Sub(_) => AsLiteral(e, false)
    case Not(operand) => AsLiteral(operand, true)
    case Binary(_, _, _) => Opaque
  }

  lemma ClassifyMeaning(e: Expr, name: string)
    ensures Classify(e).LitTerm? ==> (Evaluate(e, name) <==> Holds(Classify(e).l, name))
    ensures Classify(e).ConTerm? ==> (Evaluate(e, name) <==> Classify(e).value)
  {
  }

  /** The literals among the operands, in order. */
  function LitsOf(operands: seq<Expr>): seq<Lit> {
    if |operands| == 0 then []
    else
      var rest, last := LitsOf(operands[..|operands| - 1]), Classify(operands[|operands| - 1]);
      if last.LitTerm? then rest + [last.l] else rest
  }

  lemma {:induction false} LitsOfMembers(operands: seq<Expr>)
    ensures forall l :: l in LitsOf(operands) <==> exists x :: x in operands && Classify(x) == LitTerm(l)
  {
    hide Classify;
    if |operands| > 0 {
      LitsOfMembers(operands[..|operands| - 1]);
      assert operands == operands[..|operands| - 1] + [operands[|operands| - 1]];
    }
  }

  predicate HasConstant(operands: seq<Expr>, value: bool) {
    exists x :: x in operands && Classify(x) == ConTerm(value)
  }

  datatype Finding = Constant(value: bool) | RedundantLiteral(l: Lit) | RedundantConstant(value: bool)

  /** The findings are those of the conjunction's literals and constants. */
  ghost predicate ConjunctionFindings(operands: seq<Expr>, fs: seq<Finding>) {
    var lits := LitsOf(operands);
    && (Constant(false) in fs <==> HasConstant(operands, false) || HasClash(lits))
    && Constant(true) !in fs
    && (RedundantConstant(true) in fs <==> |operands| > 1 && HasConstant(operands, true))
    && RedundantConstant(false) !in fs
    && (forall l :: RedundantLiteral(l) in fs <==>
      exists i :: 0 <= i < |lits| && lits[i] == l && RedundantInAnd(lits, i))
  }

  method AnalyzeConjunction(operands: seq<Expr>) returns (fs: seq<Finding>)
    ensures ConjunctionFindings(operands, fs)
  {
    hide Classify, HasClash, ImpliedBy, LitsOf;
    var falses, lits := CollectTerms(operands, false);
    var clash := Contradictory(lits);
    fs := falses + if clash then [Constant(false)] else [];
    ghost var constants := fs;
    assert Constant(false) in constants <==> HasConstant(operands, false) || clash;
    var trues := ConstantRedundancies(operands, true);
    var dominated := AndRedundancies(lits);
    fs := fs + trues + dominated;
    assert forall f :: f in fs <==> f in constants || f in trues || f in dominated;
  }

  /** The first loop of either analysis: deciding constants become findings, literals are collected. */
  method CollectTerms(operands: seq<Expr>, deciding: bool) returns (fs: seq<Finding>, lits: seq<Lit>)
    ensures lits == LitsOf(operands)
    ensures forall f :: f in fs <==> f == Constant(deciding) && HasConstant(operands, deciding)
  {
    hide Classify;
    fs, lits := [], [];
    for i := 0 to |operands|
      invariant lits == LitsOf(operands[..i])
      invariant forall f :: f in fs <==> f == Constant(deciding) && HasConstant(operands[..i], deciding)
    {
      assert operands[..i + 1][..i] == operands[..i];
      assert operands[..i + 1] == operands[..i] + [operands[i]];
      match Classify(operands[i]) {
        case ConTerm(value) => if value == deciding { fs := fs + [Constant(deciding)]; }
        case LitTerm(l) => lits := lits + [l];
        case Opaque =>
      }
    }
    assert operands[..|operands|] == operands;
  }

  /** Constants that do not decide a chain of several operands add nothing to it. */
  method ConstantRedundancies(operands: seq<Expr>, neutral: bool) returns (fs: seq<Finding>)
    ensures forall f :: f in fs <==> f == RedundantConstant(neutral) && |operands| > 1 && HasConstant(operands, neutral)
  {
    hide Classify;
    fs := [];
    for i := 0 to |operands|
      invariant forall f :: f in fs <==>
        f == RedundantConstant(neutral) && |operands| > 1 && HasConstant(operands[..i], neutral)
    {
      assert operands[..i + 1] == operands[..i] + [operands[i]];
      if Classify(operands[i]) == ConTerm(neutral) && |operands| > 1 {
        fs := fs + [RedundantConstant(neutral)];
      }
    }
    assert operands[..|operands|] == operands;
  }

  method AndRedundancies(lits: seq<Lit>) returns (fs: seq<Finding>)
    ensures forall f :: f in fs <==>
      exists i :: 0 <= i < |lits| && f == RedundantLiteral(lits[i]) && RedundantInAnd(lits, i)
  {
    hide ImpliedBy;
    fs := [];
    for i := 0 to |lits|
      invariant forall f :: f in fs <==>
        exists k :: 0 <= k < i && f == RedundantLiteral(lits[k]) && RedundantInAnd(lits, k)
    {
      ghost var before := fs;
      for j := 0 to |lits|
        invariant forall f :: f in fs <==>
          (f in before || (f == RedundantLiteral(lits[i]) && exists k :: 0 <= k < j && ImpliedBy(lits, i, k)))
      {
        if ImpliedBy(lits, i, j) { fs := fs + [RedundantLiteral(lits[i])]; }
      }
    }
  }

  method OrRedundancies(lits: seq<Lit>) returns (fs: seq<Finding>)
    ensures forall f :: f in fs <==>
      exists i :: 0 <= i < |lits| && f == RedundantLiteral(lits[i]) && RedundantInOr(lits, i)
  {
    hide CoveredBy;
    fs := [];
    for i := 0 to |lits|
      invariant forall f :: f in fs <==>
        exists k :: 0 <= k < i && f == RedundantLiteral(lits[k]) && RedundantInOr(lits, k)
    {
      ghost var before := fs;
      for j := 0 to |lits|
        invariant forall f :: f in fs <==>
          (f in before || (f == RedundantLiteral(lits[i]) && exists k :: 0 <= k < j && CoveredBy(lits, i, k)))
      {
        if CoveredBy(lits, i, j) { fs := fs + [RedundantLiteral(lits[i])]; }
      }
    }
  }

  // ---------------------------------------------------------------------------
  // Disjunctions look inside multi-argument calls

  predicate IsCall(e: Expr) { e.Is? || e.Sub? }

  /** The positive literals a call is the disjunction of. */
  function AtomsOfCall(e: Expr): seq<Lit>
    requires IsCall(e)
  {
    match e
    case Is(domains) => seq(|domains|, i requires 0 <= i < |domains| => Lit(false, IsSet(domains[i])))
    case Sub(suffixes) => seq(|suffixes|, i requires 0 <= i < |suffixes| => Lit(false, SubSet(suffixes[i])))
  }

  lemma CallMeaning(e: Expr, name: string)
    requires IsCall(e)
    ensures Evaluate(e, name) <==> SomeHolds(AtomsOfCall(e), name)
  {
    var atoms := AtomsOfCall(e);
    if e.Is? {
      assert forall i :: 0 <= i < |atoms| ==> (Holds(atoms[i], name) <==> DnsName(e.domains[i]) == name);
    } else {
      assert forall i :: 0 <= i < |atoms| ==> (Holds(atoms[i], name) <==> StrictlyUnder(name, e.suffixes[i]));
    }
  }

  /** The literals one operand contributes to the redundancy check of a disjunction. */
  function Expanded(e: Expr): seq<Lit> {
    if IsCall(e) then AtomsOfCall(e)
    else if e.Not? && AsLiteral(e.operand, true).LitTerm? then [AsLiteral(e.operand, true).l]
    else []
  }

  /** The operand is neither a constant nor made of the literals it contributes. */
  predicate OpaqueInOr(e: Expr) {
    !IsCall(e) && !e.Literal? && !(e.Not? && AsLiteral(e.operand, true).LitTerm?)
  }

  function ExpandedAll(operands: seq<Expr>): seq<Lit> {
    if |operands| == 0 then []
    else ExpandedAll(operands[..|operands| - 1]) + Expanded(operands[|operands| - 1])
  }

  lemma ExpandedMeaning(e: Expr, name: string)
    requires !OpaqueInOr(e) && !e.Literal?
    ensures Evaluate(e, name) <==> SomeHolds(Expanded(e), name)
  {
    if IsCall(e) {
      CallMeaning(e, name);
    } else {
      ClassifyMeaning(e, name);
      assert Expanded(e)[0] == Classify(e).l;
    }
  }

  lemma {:induction false} ExpandedAllMeaning(operands: seq<Expr>, name: string)
    ensures SomeHolds(ExpandedAll(operands), name) <==> exists x :: x in operands && SomeHolds(Expanded(x), name)
  {
    if |operands| > 0 {
      var init, last := operands[..|operands| - 1], operands[|operands| - 1];
      assert operands == init + [last];
      ExpandedAllMeaning(init, name);
      hide Expanded, Holds;
      SomeHoldsConcat(ExpandedAll(init), Expanded(last), name);
    }
  }

  lemma SomeHoldsConcat(a: seq<Lit>, b: seq<Lit>, name: string)
    ensures SomeHolds(a + b, name) <==> SomeHolds(a, name) || SomeHolds(b, name)
  {
    hide Holds;
    if SomeHolds(a, name) {
      var i :| 0 <= i < |a| && Holds(a[i], name);
      assert (a + b)[i] == a[i];
    }
    if SomeHolds(b, name) {
      var i :| 0 <= i < |b| && Holds(b[i], name);
      assert (a + b)[|a| + i] == b[i];
    }
  }

  ghost predicate DisjunctionFindings(operands: seq<Expr>, fs: seq<Finding>) {
    var lits, expanded := LitsOf(operands), ExpandedAll(operands);
    && (Constant(true) in fs <==> HasConstant(operands, true) || HasComplement(lits))
    && Constant(false) !in fs
    && (RedundantConstant(false) in fs <==> |operands| > 1 && HasConstant(operands, false))
    && RedundantConstant(true) !in fs
    && (forall l :: RedundantLiteral(l) in fs <==>
      exists i :: 0 <= i < |expanded| && expanded[i] == l && RedundantInOr(expanded, i))
  }

  method AnalyzeDisjunction(operands: seq<Expr>) returns (fs: seq<Finding>)
    ensures DisjunctionFindings(operands, fs)
  {
    hide Classify, HasComplement, CoveredBy, Expanded, LitsOf;
    var trues, singleLits := CollectTerms(operands, true);
    var redundancyLits: seq<Lit> := [];
    for i := 0 to |operands|
      invariant redundancyLits == ExpandedAll(operands[..i])
    {
      assert operands[..i + 1][..i] == operands[..i];
      redundancyLits := redundancyLits + Expanded(operands[i]);
    }
    assert operands[..|operands|] == operands;
    hide ExpandedAll;
    var valid := Tautological(singleLits);
    fs := trues + if valid then [Constant(true)] else [];
    ghost var constants := fs;
    assert Constant(true) in constants <==> HasConstant(operands, true) || valid;
    var falses := ConstantRedundancies(operands, false);
    var dominated := OrRedundancies(redundancyLits);
    fs := fs + falses + dominated;
    assert forall f :: f in fs <==> f in constants || f in falses || f in dominated;
  }

  // ---------------------------------------------------------------------------
  // What the findings of a chain mean

  /** The chain without its redundant terms. */
  ghost predicate ReducedConjunction(operands: seq<Expr>, name: string) {
    var lits := LitsOf(operands);
    && (forall x :: x in operands && Classify(x).Opaque? ==> Evaluate(x, name))
    && !HasConstant(operands, false)
    && (forall k :: 0 <= k < |lits| && !RedundantInAnd(lits, k) ==> Holds(lits[k], name))
  }

  ghost predicate ReducedDisjunction(operands: seq<Expr>, name: string) {
    var lits := ExpandedAll(operands);
    || (exists x :: x in operands && OpaqueInOr(x) && Evaluate(x, name))
    || HasConstant(operands, true)
    || (exists k :: 0 <= k < |lits| && !RedundantInOr(lits, k) && Holds(lits[k], name))
  }

  lemma ConjunctionMeaning(operands: seq<Expr>, name: string)
    ensures (forall x :: x in operands ==> Evaluate(x, name)) <==>
      && (forall x :: x in operands && Classify(x).Opaque? ==> Evaluate(x, name))
      && !HasConstant(operands, false) && AllHold(LitsOf(operands), name)
  {
    hide Evaluate, Classify, Holds;
    LitsOfMembers(operands);
    var lits := LitsOf(operands);
    forall x ensures Classify(x).LitTerm? ==> (Evaluate(x, name) <==> Holds(Classify(x).l, name))
             ensures Classify(x).ConTerm? ==> (Evaluate(x, name) <==> Classify(x).value) { ClassifyMeaning(x, name); }
    if forall x :: x in operands ==> Evaluate(x, name) {
      forall i | 0 <= i < |lits| ensures Holds(lits[i], name) {
        assert lits[i] in lits;
      }
    }
    if AllHold(lits, name) {
      forall x | x in operands && Classify(x).LitTerm? ensures Evaluate(x, name) {
        assert Classify(x) == LitTerm(Classify(x).l);
        assert Classify(x).l in lits;
      }
    }
  }

  lemma DisjunctionMeaning(operands: seq<Expr>, name: string)
    ensures (exists x :: x in operands && Evaluate(x, name)) <==>
      || (exists x :: x in operands && OpaqueInOr(x) && Evaluate(x, name))
      || HasConstant(operands, true) || SomeHolds(ExpandedAll(operands), name)
  {
    ExpandedAllMeaning(operands, name);
    hide ExpandedAll;
    forall x ensures OpaqueInOr(x) || x.Literal? || (Evaluate(x, name) <==> SomeHolds(Expanded(x), name)) 
             ensures OpaqueInOr(x) || x.Literal? ==> !SomeHolds(Expanded(x), name)
             ensures x.Literal? ==> Classify(x) == ConTerm(x.value) && Evaluate(x, name) == x.value && !OpaqueInOr(x)
             ensures Classify(x).ConTerm? ==> x.Literal? {
      if !OpaqueInOr(x) && !x.Literal? { ExpandedMeaning(x, name); }
    }
    hide Evaluate, Classify, OpaqueInOr, Expanded, SomeHolds;
    if HasConstant(operands, true) {
      var x :| x in operands && Classify(x) == ConTerm(true);
      assert Evaluate(x, name);
    }
    if x :| x in operands && Evaluate(x, name) {
      if !OpaqueInOr(x) && x.Literal? { assert Classify(x) == ConTerm(true); }
    }
  }

  predicate ParsedExpr(e: Expr) {
    match e
    case Is(domains) => forall i :: 0 <= i < |domains| ==> Parsed(domains[i])
    case Not(operand) => ParsedExpr(operand)
    case Binary(_, left, right) => ParsedExpr(left) && ParsedExpr(right)
    case _ => true
  }

  lemma {:induction false} FlattenParsed(e: Expr, op: Operator)
    requires ParsedExpr(e)
    ensures forall x :: x in Flatten(e, op) ==> ParsedExpr(x)
  {
    if IsChain(e, op) {
      FlattenParsed(e.left, op);
      FlattenParsed(e.right, op);
    }
  }

  lemma ParsedTerms(e: Expr)
    requires ParsedExpr(e)
    ensures ParsedLits(Expanded(e)) && (Classify(e).LitTerm? ==> ParsedAtom(Classify(e).l.atom))
  {
    if e.Not? { assert ParsedExpr(e.operand); }
  }

  lemma {:induction false} ParsedOperands(operands: seq<Expr>)
    requires forall x :: x in operands ==> ParsedExpr(x)
    ensures ParsedLits(LitsOf(operands)) && ParsedLits(ExpandedAll(operands))
  {
    if |operands| > 0 {
      var init, last := operands[..|operands| - 1], operands[|operands| - 1];
      assert forall x :: x in init ==> x in operands;
      ParsedOperands(init);
      assert last in operands;
      ParsedTerms(last);
    }
  }

  /** Removing every redundant term of an && chain at once preserves its meaning. */
  lemma ConjunctionReduces(e: Expr, name: string)
    requires ParsedExpr(e)
    ensures Evaluate(e, name) <==> ReducedConjunction(Flatten(e, AndOp), name)
  {
    hide Evaluate, Classify, Holds, RedundantInAnd, LitsOf, ParsedExpr, Flatten;
    var operands := Flatten(e, AndOp);
    FlattenMeaning(e, name);
    FlattenParsed(e, AndOp);
    ParsedOperands(operands);
    ConjunctionMeaning(operands, name);
    AndRedundancyPreserves(LitsOf(operands), name);
  }

  /** Removing every redundant term of an || chain at once, even inside its calls, preserves its meaning. */
  lemma DisjunctionReduces(e: Expr, name: string)
    requires ParsedExpr(e)
    ensures Evaluate(e, name) <==> ReducedDisjunction(Flatten(e, OrOp), name)
  {
    hide Evaluate, Classify, Holds, RedundantInOr, ExpandedAll, ParsedExpr, Flatten, OpaqueInOr;
    var operands := Flatten(e, OrOp);
    FlattenMeaning(e, name);
    FlattenParsed(e, OrOp);
    ParsedOperands(operands);
    DisjunctionMeaning(operands, name);
    OrRedundancyPreserves(ExpandedAll(operands), name);
  }

  /** A conjunction with a false term or a clash is false on every name. */
  lemma ConjunctionConstant(e: Expr, name: string)
    requires var operands := Flatten(e, AndOp); HasConstant(operands, false) || HasClash(LitsOf(operands))
    ensures !Evaluate(e, name)
  {
    hide Evaluate, Classify, Holds, LitsOf, HasClash, Flatten;
    var operands := Flatten(e, AndOp);
    FlattenMeaning(e, name);
    ConjunctionMeaning(operands, name);
    if HasClash(LitsOf(operands)) { ContradictorySound(LitsOf(operands), name); }
  }

  /** A disjunction with a true term or a complementary pair is true on every name. */
  lemma DisjunctionConstant(e: Expr, name: string)
    requires var operands := Flatten(e, OrOp); HasConstant(operands, true) || HasComplement(LitsOf(operands))
    ensures Evaluate(e, name)
  {
    hide HasComplement, Flatten;
    var operands := Flatten(e, OrOp);
    FlattenMeaning(e, name);
    LitsOfMembers(operands);
    var lits := LitsOf(operands);
    hide LitsOf, Evaluate, Classify;
    if HasConstant(operands, true) {
      var x :| x in operands && Classify(x) == ConTerm(true);
      ClassifyMeaning(x, name);
    } else {
      TautologicalSound(lits, name);
      var i :| 0 <= i < |lits| && Holds(lits[i], name);
      assert lits[i] in lits;
      var x :| x in operands && Classify(x) == LitTerm(lits[i]);
      ClassifyMeaning(x, name);
    }
  }

  /** Removing the redundant arguments of one call at once preserves its meaning. */
  lemma CallReduces(e: Expr, name: string)
    requires IsCall(e) && ParsedExpr(e)
    ensures var lits := AtomsOfCall(e);
      Evaluate(e, name) <==> exists k :: 0 <= k < |lits| && !RedundantInOr(lits, k) && Holds(lits[k], name)
  {
    CallMeaning(e, name);
    OrRedundancyPreserves(AtomsOfCall(e), name);
  }

  // ---------------------------------------------------------------------------
  // Static truth values

  datatype Known = Known(value: bool) | Unknown

  predicate IsAlwaysTrueAtom(e: Expr) {
    e.Sub? && e.suffixes == [""]
  }

  function ConstValue(e: Expr): Known {
    match e
    case Literal(value) => Known(value)
    case Is(_) => Unknown
    case Sub(_) => if IsAlwaysTrueAtom(e) then Known(true) else Unknown
    case Not(operand) =>
      (match ConstValue(operand)
       case Known(v) => Known(!v)
       case Unknown => Unknown)
    case Binary(op, left, right) =>
      var l, r := ConstValue(left), ConstValue(right);
      var decisive := op == OrOp;
      if l == Known(decisive) || r == Known(decisive) then Known(decisive)
      else if l.Known? && r.Known? then Known(!decisive)
      else Unknown
  }

  /** A static value is right for every domain but the root. */
  lemma {:induction false} ConstValueSound(e: Expr, name: string)
    requires name != "" && ConstValue(e).Known?
    ensures Evaluate(e, name) == ConstValue(e).value
  {
    match e
    case Literal(_) =>
    case Is(_) =>
    case Sub(suffixes) => assert StrictlyUnder(name, suffixes[0]);
    case Not(operand) => ConstValueSound(operand, name);
    case Binary(_, left, right) =>
      if ConstValue(left).Known? { ConstValueSound(left, name); }
      if ConstValue(right).Known? { ConstValueSound(right, name); }
  }

  /** And the root is a genuine exception. */
  lemma ConstValueAtRoot()
    ensures ConstValue(Sub([""])) == Known(true) && !Evaluate(Sub([""]), "")
  {
  }

  predicate ContainsAlwaysTrueAtom(e: Expr) {
    exists x :: x in Nodes(e) && IsAlwaysTrueAtom(x)
  }

  /** Some node of e evaluates to v on every name but the root. */
  ghost predicate ConstantSomewhere(e: Expr, v: bool) {
    exists x :: x in Nodes(e) && forall name | name != "" :: Evaluate(x, name) == v
  }

  lemma RootIsNode(e: Expr)
    ensures e in Nodes(e)
  {
  }

  /** What the analysis of one && or || chain reports. */
  predicate ChainReports(x: Expr, f: Finding)
    requires x.Binary?
  {
    var operands, deciding := Flatten(x, x.op), x.op == OrOp;
    match f
    case Constant(v) =>
      v == deciding
      && (HasConstant(operands, v) || if deciding then HasComplement(LitsOf(operands)) else HasClash(LitsOf(operands)))
    case RedundantConstant(v) => v != deciding && |operands| > 1 && HasConstant(operands, v)
    case RedundantLiteral(l) =>
      if deciding then DominatedInOr(ExpandedAll(operands), l) else DominatedInAnd(LitsOf(operands), l)
  }

  predicate DominatedInOr(lits: seq<Lit>, l: Lit) {
    exists i :: 0 <= i < |lits| && lits[i] == l && RedundantInOr(lits, i)
  }

  predicate DominatedInAnd(lits: seq<Lit>, l: Lit) {
    exists i :: 0 <= i < |lits| && lits[i] == l && RedundantInAnd(lits, i)
  }

  /** What the argument check of a call reports. */
  predicate CallReports(x: Expr, f: Finding) {
    IsCall(x) && |AtomsOfCall(x)| > 1 && f.RedundantLiteral? && DominatedInOr(AtomsOfCall(x), f.l)
  }

  /** What one node reports by itself. */
  predicate NodeReports(x: Expr, f: Finding) {
    (x.Binary? && ChainReports(x, f)) || CallReports(x, f)
  }

  /** What the whole expression reports. */
  predicate Reports(e: Expr, f: Finding) {
    || (exists x :: x in Nodes(e) && NodeReports(x, f))
    || (ContainsAlwaysTrueAtom(e) && ConstValue(e).Known? && f == Constant(ConstValue(e).value))
  }

  /** Every constant that is reported is the value of some node on all names but the root. */
  lemma ReportedConstants(e: Expr, v: bool)
    requires Reports(e, Constant(v))
    ensures ConstantSomewhere(e, v)
  {
    hide Nodes, ConstantSomewhere, Evaluate, ChainReports, ContainsAlwaysTrueAtom;
    if x :| x in Nodes(e) && NodeReports(x, Constant(v)) {
      forall name ensures Evaluate(x, name) == v { ChainConstant(x, v, name); }
      NodeConstant(e, x, v);
    } else {
      RootIsNode(e);
      forall name | name != "" ensures Evaluate(e, name) == v { ConstValueSound(e, name); }
      NodeConstant(e, e, v);
    }
  }

  lemma ChainConstant(x: Expr, v: bool, name: string)
    requires x.Binary? && ChainReports(x, Constant(v))
    ensures Evaluate(x, name) == v
  {
    hide Evaluate, Flatten, HasClash, HasComplement, LitsOf, HasConstant;
    if x.op == AndOp { ConjunctionConstant(x, name); } else { DisjunctionConstant(x, name); }
  }

  /** All semantic findings of an expression, chain by chain, call by call, then as a whole. */
  method SemanticFindings(e: Expr) returns (fs: seq<Finding>)
    ensures forall f :: f in fs <==> Reports(e, f)
  {
    hide Nodes, NodeReports;
    fs := [];
    var nodes := Nodes(e);
    for i := 0 to |nodes|
      invariant forall f :: f in fs <==> exists k :: 0 <= k < i && nodes[k].Binary? && ChainReports(nodes[k], f)
    {
      hide ChainReports;
      if nodes[i].Binary? {
        ghost var before := fs;
        var more := ChainFindings(nodes[i]);
        fs := fs + more;
        assert forall f :: f in fs <==> f in before || f in more;
      }
    }
    ghost var chains := fs;
    for i := 0 to |nodes|
      invariant forall f :: f in fs <==> f in chains || exists k :: 0 <= k < i && CallReports(nodes[k], f)
    {
      hide CallReports;
      ghost var before := fs;
      var more := CallFindings(nodes[i]);
      fs := fs + more;
      assert forall f :: f in fs <==> f in before || f in more;
    }
    ghost var local := fs;
    NodesReport(nodes, chains, local);
    if (exists x :: x in nodes && IsAlwaysTrueAtom(x)) && ConstValue(e).Known? {
      fs := fs + [Constant(ConstValue(e).value)];
    }
    hide ConstValue, IsAlwaysTrueAtom;
    assert forall f :: f in fs <==>
      f in local || (ContainsAlwaysTrueAtom(e) && ConstValue(e).Known? && f == Constant(ConstValue(e).value));
  }

  lemma NodesReport(nodes: seq<Expr>, chains: seq<Finding>, all: seq<Finding>)
    requires forall f :: f in chains <==> exists k :: 0 <= k < |nodes| && nodes[k].Binary? && ChainReports(nodes[k], f)
    requires forall f :: f in all <==> f in chains || exists k :: 0 <= k < |nodes| && CallReports(nodes[k], f)
    ensures forall f :: f in all <==> exists x :: x in nodes && NodeReports(x, f)
  {
    hide ChainReports, CallReports;
    forall f ensures f in all <==> exists x :: x in nodes && NodeReports(x, f) {
      if f in all {
        var k :| 0 <= k < |nodes| && NodeReports(nodes[k], f);
        assert nodes[k] in nodes;
      }
      if x :| x in nodes && NodeReports(x, f) {
        var k :| 0 <= k < |nodes| && nodes[k] == x;
      }
    }
  }

  lemma NodeConstant(e: Expr, x: Expr, v: bool)
    requires x in Nodes(e) && forall name | name != "" :: Evaluate(x, name) == v
    ensures ConstantSomewhere(e, v)
  {
  }

  /** The findings of one call's arguments. */
  method CallFindings(x: Expr) returns (fs: seq<Finding>)
    ensures forall f :: f in fs <==> CallReports(x, f)
  {
    fs := [];
    if IsCall(x) && |AtomsOfCall(x)| > 1 {
      hide RedundantInOr;
      fs := OrRedundancies(AtomsOfCall(x));
    }
  }

  /** The findings of one chain. */
  method ChainFindings(x: Expr) returns (fs: seq<Finding>)
    requires x.Binary?
    ensures forall f :: f in fs <==> ChainReports(x, f)
  {
    hide Flatten, HasClash, HasComplement, LitsOf, ExpandedAll, HasConstant, RedundantInAnd, RedundantInOr;
    match x.op {
      case AndOp => fs := AnalyzeConjunction(Flatten(x, AndOp));
      case OrOp => fs := AnalyzeDisjunction(Flatten(x, OrOp));
    }
  }
}
