/** expr.c, first part: equality of expressions up to the order and grouping of
    operands, decided by removing common operands from two copies. */
module ExprEq {
  import opened Kconfig

  datatype Two = Two(a: Expr, b: Expr)

  /** __expr_eliminate_eq: each pair of equal operands of the two expressions is
      replaced by the unit of the operator. */
  function EliminateOp(op: Op, a: Expr, b: Expr): (r: Two)
    ensures Size(r.a) <= Size(a) && Size(r.b) <= Size(b)
    decreases Size(a) + Size(b), if IsOp(a, op) || IsOp(b, op) then 0 else 2
  {
    if IsOp(a, op) then
      var x := EliminateOp(op, a.left, b);
      var y := EliminateOp(op, a.right, x.b);
      Two(Bin(op, x.a, y.a), y.b)
    else if IsOp(b, op) then
      var x := EliminateOp(op, a, b.left);
      var y := EliminateOp(op, x.a, b.right);
      Two(y.a, Bin(op, x.b, y.b))
    else if a == b && IsYn(a) then Two(a, b)
    else if Eq(a, b) then Two(Sym(op.Unit()), Sym(op.Unit()))
    else Two(a, b)
  }

  predicate SameType(a: Expr, b: Expr) {
    match a
    case Sym(_) => b.Sym?
    case Equal(_, _) => b.Equal?
    case Unequal(_, _) => b.Unequal?
    case Not(_) => b.Not?
    case Bin(op, _, _) => IsOp(b, op)
  }

  /** expr_eliminate_eq */
  function EliminateEq(a: Expr, b: Expr): (r: Two)
    ensures Size(r.a) <= Size(a) && Size(r.b) <= Size(b)
    decreases Size(a) + Size(b), 1, 0
  {
    var x := if a.Bin? then EliminateOp(a.op, a, b) else Two(a, b);
    var y := if !SameType(x.a, x.b) && x.b.Bin? then EliminateOp(x.b.op, x.a, x.b) else x;
    Two(EliminateYn(y.a), EliminateYn(y.b))
  }

  /** expr_eq */
  function Eq(a: Expr, b: Expr): bool
    decreases Size(a) + Size(b), 1
  {
    match a
    case Bin(op, _, _) =>
      IsOp(b, op) &&
      var x := EliminateEq(a, b);
      x.a.Sym? && x.a == x.b
    case Not(c) => b.Not? && Eq(c, b.e)
    case _ => a == b
  }

  /** What was removed from both, combined, is a value c that completes what is
      left of each. */
  lemma {:induction false} EliminateOpValue(v: Env, op: Op, a: Expr, b: Expr) returns (c: Tri)
    requires Typed(v)
    ensures var r := EliminateOp(op, a, b);
      Value(v, a) == op.Apply(c, Value(v, r.a)) && Value(v, b) == op.Apply(c, Value(v, r.b))
    decreases Size(a) + Size(b), if IsOp(a, op) || IsOp(b, op) then 0 else 2
  {
    hide Eq, Op.Apply;
    if IsOp(a, op) {
      var x := EliminateOp(op, a.left, b);
      var y := EliminateOp(op, a.right, x.b);
      var c1 := EliminateOpValue(v, op, a.left, b);
      var c2 := EliminateOpValue(v, op, a.right, x.b);
      c := op.Apply(c1, c2);
      OpShuffle(op, c1, c2, Value(v, x.a), Value(v, y.a));
      OpShuffle(op, c1, c2, Value(v, y.b), 0);
    } else if IsOp(b, op) {
      var x := EliminateOp(op, a, b.left);
      var y := EliminateOp(op, x.a, b.right);
      var c1 := EliminateOpValue(v, op, a, b.left);
      var c2 := EliminateOpValue(v, op, x.a, b.right);
      c := op.Apply(c1, c2);
      OpShuffle(op, c1, c2, Value(v, x.b), Value(v, y.b));
      OpShuffle(op, c1, c2, Value(v, y.a), 0);
    } else if a == b && IsYn(a) {
      c := v.tri(op.Unit());
      UnitValue(v, op, Value(v, a));
    } else if Eq(a, b) {
      EqSound(v, a, b);
      c := Value(v, a);
      UnitValue(v, op, c);
    } else {
      c := v.tri(op.Unit());
      UnitValue(v, op, Value(v, a));
      UnitValue(v, op, Value(v, b));
    }
  }

  /** Two expressions that agree once common operands are removed agree. */
  lemma {:induction false} EliminateEqValue(v: Env, a: Expr, b: Expr)
    requires Typed(v)
    ensures var r := EliminateEq(a, b); Value(v, r.a) == Value(v, r.b) ==> Value(v, a) == Value(v, b)
    decreases Size(a) + Size(b), 1, 0
  {
    var x := if a.Bin? then EliminateOp(a.op, a, b) else Two(a, b);
    var y := if !SameType(x.a, x.b) && x.b.Bin? then EliminateOp(x.b.op, x.a, x.b) else x;
    if a.Bin? { var c := EliminateOpValue(v, a.op, a, b); }
    if !SameType(x.a, x.b) && x.b.Bin? { var c := EliminateOpValue(v, x.b.op, x.a, x.b); }
    YnValue(v, y.a);
    YnValue(v, y.b);
  }

  /** Expressions that expr_eq calls equal have the same value in every
      assignment. */
  lemma {:induction false} EqSound(v: Env, a: Expr, b: Expr)
    requires Typed(v) && Eq(a, b)
    ensures Value(v, a) == Value(v, b)
    decreases Size(a) + Size(b), 1
  {
    if a.Bin? {
      EliminateEqValue(v, a, b);
    } else if a.Not? {
      EqSound(v, a.e, b.e);
    }
  }
}
