/** Domain expressions: Boolean combinations of is(...) and sub(...) atoms. */
module DomainExpr {
  import opened Domains

  datatype Operator = AndOp | OrOp

  datatype Expr =
    | Literal(value: bool)
    | Is(domains: seq<Domain>)
    | Sub(suffixes: seq<Suffix>)
    | Not(operand: Expr)
    | Binary(op: Operator, left: Expr, right: Expr)

  /** The value of e for a domain with the given ASCII name. */
  predicate Evaluate(e: Expr, name: string) {
    match e
    case Literal(value) => value
    case Is(domains) => exists i :: 0 <= i < |domains| && DnsName(domains[i]) == name
    case Sub(suffixes) => exists i :: 0 <= i < |suffixes| && StrictlyUnder(name, suffixes[i])
    case Not(operand) => !Evaluate(operand, name)
    case Binary(AndOp, left, right) => Evaluate(left, name) && Evaluate(right, name)
    case Binary(OrOp, left, right) => Evaluate(left, name) || Evaluate(right, name)
  }

  predicate IsChain(e: Expr, op: Operator) {
    e.Binary? && e.op == op
  }

  /** What op joins at the top of e, from left to right; e alone when its root is something else. */
  function Flatten(e: Expr, op: Operator): seq<Expr> {
    if IsChain(e, op) then Flatten(e.left, op) + Flatten(e.right, op) else [e]
  }

  /** A chain means the conjunction or disjunction of its operands. */
  lemma {:induction false} FlattenMeaning(e: Expr, name: string)
    ensures Evaluate(e, name) <==> forall x :: x in Flatten(e, AndOp) ==> Evaluate(x, name)
    ensures Evaluate(e, name) <==> exists x :: x in Flatten(e, OrOp) && Evaluate(x, name)
  {
    if e.Binary? {
      FlattenMeaning(e.left, name);
      FlattenMeaning(e.right, name);
      if e.op == OrOp {
        assert Flatten(e, AndOp) == [e];
        assert e in Flatten(e, AndOp);
      } else {
        assert Flatten(e, OrOp) == [e];
        assert e in Flatten(e, OrOp);
      }
    } else {
      assert Flatten(e, AndOp) == [e] == Flatten(e, OrOp);
      assert e in [e];
    }
  }

  /** e and everything below it, parents before children and left before right. */
  function Nodes(e: Expr): seq<Expr> {
    match e
    case Not(operand) => [e] + Nodes(operand)
    case Binary(_, left, right) => [e] + Nodes(left) + Nodes(right)
    case _ => [e]
  }
}
