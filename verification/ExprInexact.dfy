/** expr.c: two operands that together refute a third one, which is m.  For any two
    tristate symbols, expr_eliminate_dups turns (s || t) && !s && !t into n, which
    is right exactly where it is not m. */
module ExprInexact {
  import opened Kconfig
  import opened ExprEq
  import opened ExprTransform
  import opened ExprJoin
  import opened ExprDups
  import opened ExprContradict

  /** Two different tristate symbols. */
  predicate Tristates(s: Symbol, t: Symbol) {
    s.Type() == Tristate && t.Type() == Tristate && s != t
  }

  function Either(s: Symbol, t: Symbol): Expr { Bin(Or, Sym(s), Sym(t)) }
  function Neither(s: Symbol, t: Symbol): Expr { Bin(And, Not(Sym(s)), Not(Sym(t))) }
  function Contradiction(s: Symbol, t: Symbol): Expr { Bin(And, Either(s, t), Neither(s, t)) }

  /** Operands that cannot be joined stay as they are. */
  lemma {:induction false} Unjoined(op: Op, xs: seq<Expr>, i: nat, j: nat)
    requires i < |xs| && j <= |xs| && Operands(op, xs) && (xs[i].Bin? ==> Dups1(xs[i].op, xs[i]) == Changed(xs[i], 0))
    requires forall k :: j <= k < |xs| && k != i ==> Join(op, xs[i], xs[k]) == None
    ensures JoinRow(op, xs, i, j) == List(xs, 0)
    decreases |xs| - j
  {
    hide Dups1, Join;
    if j < |xs| {
      Unjoined(op, xs, i, j + 1);
      assert xs[i := xs[i]][j := xs[j]] == xs;
    }
  }

  /** An operand that is no and or or is not refuted. */
  lemma UnrefutedBy(op: Op, e: Expr, lo: nat, xs: seq<Expr>, i: nat)
    requires Operands(op, xs) && i < |xs| && lo + |Leaves(op, e)| <= |xs| && !xs[i].Bin?
    ensures Against(op, e, lo, List(xs, 0), i) == List(xs, 0)
  {
    hide Build, ExtractEq, Transform, Leaves;
    assert xs[i := xs[i]] == xs;
  }

  lemma {:induction false} Unrefuted(op: Op, e: Expr, lo: nat, xs: seq<Expr>, i: nat)
    requires Operands(op, xs) && i < |xs| && lo + |Leaves(op, e)| <= |xs| && !xs[i].Bin?
    ensures RefuteBy(op, e, lo, xs, i) == List(xs, 0)
  {
    hide Against;
    UnrefutedBy(op, e, lo, xs, i);
    if IsOp(e, op) {
      Unrefuted(op, e.left, lo, xs, i);
      Unrefuted(op, e.right, lo + |Leaves(op, e.left)|, xs, i);
    }
  }

  lemma TwoStay(op: Op, f: Expr, b: Expr)
    requires !f.Bin? && !b.Bin? && Join(op, f, b) == None && Join(op, b, f) == None
    ensures Dups1(op, Bin(op, f, b)) == Changed(Bin(op, f, b), 0)
      && Dups2(op, Bin(op, f, b)) == Changed(Bin(op, f, b), 0)
  {
    hide Leaves, JoinRows, RefuteRows;
    hide Join, Build;
    var e, xs := Bin(op, f, b), [f, b];
    TwoLeaves(op, f, b);
    TwoRows(op, e, xs);
    BuildSame(op, e);
  }

  lemma TwoLeaves(op: Op, f: Expr, b: Expr)
    requires !f.Bin? && !b.Bin?
    ensures Leaves(op, Bin(op, f, b)) == [f, b] && Operands(op, [f, b])
  {
    assert Leaves(op, f) == [f] && Leaves(op, b) == [b];
  }

  lemma TwoRows(op: Op, e: Expr, xs: seq<Expr>)
    requires |xs| == 2 && Leaves(op, e) == xs && Operands(op, xs) && !xs[0].Bin? && !xs[1].Bin?
    requires Join(op, xs[0], xs[1]) == None && Join(op, xs[1], xs[0]) == None
    ensures JoinRows(op, xs, 0) == List(xs, 0) && RefuteRows(op, e, xs, 0) == List(xs, 0)
  {
    hide Join, JoinRow, RefuteBy, Leaves;
    Unjoined(op, xs, 0, 0);
    Unjoined(op, xs, 1, 0);
    assert JoinRows(op, xs, 2) == List(xs, 0);
    assert JoinRows(op, xs, 1) == List(xs, 0);
    Unrefuted(op, e, 0, xs, 0);
    Unrefuted(op, e, 0, xs, 1);
    assert RefuteRows(op, e, xs, 2) == List(xs, 0);
    assert RefuteRows(op, e, xs, 1) == List(xs, 0);
  }

  lemma EitherStays(s: Symbol, t: Symbol)
    requires Tristates(s, t)
    ensures Dups1(Or, Either(s, t)) == Changed(Either(s, t), 0) && Dups2(Or, Either(s, t)) == Changed(Either(s, t), 0)
  {
    hide Dups1, Dups2;
    TwoStay(Or, Sym(s), Sym(t));
  }

  lemma ContradictionLeaves(s: Symbol, t: Symbol)
    requires Tristates(s, t)
    ensures Leaves(And, Neither(s, t)) == [Not(Sym(s)), Not(Sym(t))] && Leaves(And, Either(s, t)) == [Either(s, t)]
    ensures Leaves(And, Contradiction(s, t)) == [Either(s, t), Not(Sym(s)), Not(Sym(t))]
      && Operands(And, [Either(s, t), Not(Sym(s)), Not(Sym(t))])
    ensures IsOp(Contradiction(s, t), And) && Either(s, t).Bin? && Either(s, t).op == Or
    ensures Contradiction(s, t) == Bin(And, Either(s, t), Neither(s, t))
      && Neither(s, t) == Bin(And, Not(Sym(s)), Not(Sym(t)))
  {
    assert Leaves(And, Not(Sym(s))) == [Not(Sym(s))] && Leaves(And, Not(Sym(t))) == [Not(Sym(t))];
  }

  lemma ContradictionPairs(s: Symbol, t: Symbol)
    requires Tristates(s, t)
    ensures Join(And, Either(s, t), Not(Sym(s))) == None && Join(And, Either(s, t), Not(Sym(t))) == None
    ensures Join(And, Not(Sym(s)), Either(s, t)) == None && Join(And, Not(Sym(t)), Either(s, t)) == None
    ensures Join(And, Not(Sym(s)), Not(Sym(t))) == None && Join(And, Not(Sym(t)), Not(Sym(s))) == None
  {
    EqBasics(s, t);
  }

  lemma ThreeStay(op: Op, e: Expr, xs: seq<Expr>)
    requires IsOp(e, op) && xs == Leaves(op, e) && |xs| == 3 && Operands(op, xs)
    requires forall i: nat :: i < 3 ==> JoinRow(op, xs, i, 0) == List(xs, 0)
    ensures Dups1(op, e) == Changed(e, 0)
  {
    hide JoinRow, Leaves, Build;
    BuildSame(op, e);
    assert JoinRows(op, xs, 3) == List(xs, 0);
    assert JoinRows(op, xs, 2) == List(xs, 0);
    assert JoinRows(op, xs, 1) == List(xs, 0);
    assert JoinRows(op, xs, 0) == List(xs, 0);
  }

  lemma UnjoinedThree(op: Op, x: Expr, y: Expr, z: Expr, i: nat)
    requires i < 3 && Operands(op, [x, y, z]) && !y.Bin? && !z.Bin? && (x.Bin? ==> Dups1(x.op, x) == Changed(x, 0))
    requires Join(op, x, y) == None && Join(op, x, z) == None && Join(op, y, x) == None
    requires Join(op, y, z) == None && Join(op, z, x) == None && Join(op, z, y) == None
    ensures JoinRow(op, [x, y, z], i, 0) == List([x, y, z], 0)
  {
    hide Dups1, Join, JoinRow;
    Unjoined(op, [x, y, z], i, 0);
  }

  lemma ContradictionUnjoined(s: Symbol, t: Symbol)
    requires Tristates(s, t)
    ensures Dups1(And, Contradiction(s, t)) == Changed(Contradiction(s, t), 0)
  {
    hide *;
    ContradictionLeaves(s, t);
    EitherStays(s, t);
    ContradictionPairs(s, t);
    UnjoinedThree(And, Either(s, t), Not(Sym(s)), Not(Sym(t)), 0);
    UnjoinedThree(And, Either(s, t), Not(Sym(s)), Not(Sym(t)), 1);
    UnjoinedThree(And, Either(s, t), Not(Sym(s)), Not(Sym(t)), 2);
    ThreeStay(And, Contradiction(s, t), [Either(s, t), Not(Sym(s)), Not(Sym(t))]);
  }

  // ----- its refutation -----

  lemma EitherNegated(s: Symbol, t: Symbol)
    requires Tristates(s, t)
    ensures Transform(Not(Either(s, t))) == Neither(s, t)
  {
    assert Transform(Either(s, t)) == Either(s, t);
    assert Transform(Not(Sym(s))) == Not(Sym(s)) && Transform(Not(Sym(t))) == Not(Sym(t));
    assert Transform(Neither(s, t)) == Neither(s, t);
  }

  lemma EqBasics(s: Symbol, t: Symbol)
    requires Tristates(s, t)
    ensures Eq(Not(Sym(s)), Not(Sym(s))) && Eq(Not(Sym(t)), Not(Sym(t))) && !Eq(Not(Sym(s)), Not(Sym(t)))
      && !Eq(Not(Sym(t)), Not(Sym(s)))
    ensures !Eq(Sym(Yes), Not(Sym(s))) && !Eq(Sym(Yes), Not(Sym(t))) && !Eq(Not(Sym(s)), Sym(Yes))
      && !Eq(Not(Sym(t)), Sym(Yes))
  {
    assert !Eq(Sym(s), Sym(t)) && !Eq(Sym(t), Sym(s)) && Eq(Sym(s), Sym(s)) && Eq(Sym(t), Sym(t));
  }

  lemma NeitherExtracts(s: Symbol, t: Symbol)
    requires Tristates(s, t)
    ensures ExtractEq(And, Neither(s, t), Not(Sym(s))).a == Not(Sym(t))
    ensures ExtractEq(And, Neither(s, t), Not(Sym(t))).a == Not(Sym(s))
    ensures ExtractEq(And, Neither(s, t), Neither(s, t)).a == Sym(Yes)
  {
    hide Eq;
    EqBasics(s, t);
    var f, b := Not(Sym(s)), Not(Sym(t));
    assert Extract(And, f, f) == Parts(Sym(Yes), Sym(Yes), true)
      && Extract(And, b, b) == Parts(Sym(Yes), Sym(Yes), true);
    assert Extract(And, f, b) == Parts(f, b, false) && Extract(And, b, Sym(Yes)) == Parts(b, Sym(Yes), false);
    assert Extract(And, Sym(Yes), b) == Parts(Sym(Yes), b, false);
    assert Extract(And, f, Neither(s, t)) == Parts(Sym(Yes), Bin(And, Sym(Yes), b), true);
    assert Extract(And, b, Bin(And, Sym(Yes), b)) == Parts(Sym(Yes), Bin(And, Sym(Yes), Sym(Yes)), true);
    assert Extract(And, Neither(s, t), f) == Parts(Bin(And, Sym(Yes), b), Sym(Yes), true);
    assert Extract(And, Neither(s, t), b) == Parts(Bin(And, f, Sym(Yes)), Sym(Yes), true);
    assert EliminateYn(Bin(And, Sym(Yes), b)) == b && EliminateYn(Bin(And, f, Sym(Yes))) == f;
  }

  /** The first operand against the other two, and then against both. */
  lemma RefuteThree(a: Expr, f: Expr, b: Expr)
    requires !f.Bin? && !b.Bin? && a.Bin? && a.op == Or && Operands(And, [a, f, b])
    requires Dups2(Or, a) == Changed(a, 0)
    requires !Refuted(And, a, f) && !Refuted(And, a, b) && Refuted(And, a, Bin(And, f, b))
    ensures |Leaves(And, Bin(And, f, b))| == 2
    ensures RefuteBy(And, Bin(And, f, b), 1, [a, f, b], 0) == List([Sym(No), f, b], 1)
  {
    hide Dups2, Refuted;
    var xs, ys := [a, f, b], [Sym(No), f, b];
    assert Leaves(And, f) == [f] && Leaves(And, b) == [b];
    var e := Bin(And, f, b);
    assert xs[0 := a] == xs && xs[0 := Sym(No)] == ys;
    assert xs[1..2] == [f] && xs[2..3] == [b] && xs[1..3] == [f, b];
    assert Simplify(And, a) == Changed(a, 0);
    AgainstLeaf(And, a, f, 1, xs);
    AgainstLeaf(And, a, b, 2, xs);
    assert [f, b][..1] == [f] && [f, b][1..] == [b];
    assert Build(And, f, [f]) == f && Build(And, b, [b]) == b;
    assert Build(And, e, [f, b]) == e;
    assert Against(And, e, 1, List(xs, 0), 0) == List(ys, 1);
    assert RefuteBy(And, f, 1, xs, 0) == List(xs, 0);
    assert RefuteBy(And, b, 2, xs, 0) == List(xs, 0);
  }

  /** A single operand that does not refute the first leaves it. */
  lemma AgainstLeaf(op: Op, a: Expr, f: Expr, lo: nat, xs: seq<Expr>)
    requires 0 < lo < |xs| && xs[0] == a && xs[lo] == f && !f.Bin? && Operands(op, xs) && |Leaves(op, f)| == 1
    requires Simplify(op, a) == Changed(a, 0) && !Refuted(op, a, f)
    ensures Against(op, f, lo, List(xs, 0), 0) == List(xs, 0)
  {
    hide Simplify, Refuted, Leaves;
    assert xs[0 := a] == xs && xs[lo..lo + 1] == [f];
    assert Build(op, f, [f]) == f;
  }

  lemma ContradictionRows2(a: Expr, f: Expr, b: Expr)
    requires !f.Bin? && !b.Bin? && a.Bin? && a.op == Or && Operands(And, [a, f, b])
    requires |Leaves(And, Bin(And, f, b))| == 2 && Leaves(And, a) == [a]
    requires Leaves(And, Bin(And, a, Bin(And, f, b))) == [a, f, b]
    requires RefuteBy(And, Bin(And, f, b), 1, [a, f, b], 0) == List([Sym(No), f, b], 1)
    ensures Dups2(And, Bin(And, a, Bin(And, f, b))) == Changed(Bin(And, Sym(No), Bin(And, f, b)), 1)
  {
    hide Simplify, Refuted, Against, Leaves, Build;
    var xs, ys, e := [a, f, b], [Sym(No), f, b], Bin(And, a, Bin(And, f, b));
    UnrefutedAfter(a, f, b);
    assert RefuteBy(And, a, 0, xs, 0) == List(xs, 0);
    assert RefuteBy(And, e, 0, xs, 0) == List(ys, 1);
    Unrefuted(And, e, 0, ys, 1);
    Unrefuted(And, e, 0, ys, 2);
    assert RefuteRows(And, e, ys, 3) == List(ys, 0);
    assert RefuteRows(And, e, ys, 2) == List(ys, 0);
    assert RefuteRows(And, e, ys, 1) == List(ys, 0);
    assert RefuteRows(And, e, xs, 0) == List(ys, 1);
    BuildThree(a, f, b);
  }

  lemma UnrefutedAfter(a: Expr, f: Expr, b: Expr)
    requires !f.Bin? && !b.Bin? && a.Bin? && a.op == Or
    requires Leaves(And, Bin(And, a, Bin(And, f, b))) == [a, f, b]
    ensures Operands(And, [Sym(No), f, b])
    ensures Against(And, Bin(And, a, Bin(And, f, b)), 0, List([Sym(No), f, b], 1), 0) == List([Sym(No), f, b], 1)
  {
    hide Build, ExtractEq, Transform, Leaves;
    var ys := [Sym(No), f, b];
    assert ys[0 := Sym(No)] == ys;
  }

  lemma BuildThree(a: Expr, f: Expr, b: Expr)
    requires !f.Bin? && !b.Bin? && a.Bin? && a.op == Or
    ensures |Leaves(And, Bin(And, a, Bin(And, f, b)))| == 3
    ensures Build(And, Bin(And, a, Bin(And, f, b)), [Sym(No), f, b]) == Bin(And, Sym(No), Bin(And, f, b))
  {
    var ys := [Sym(No), f, b];
    assert Leaves(And, a) == [a] && Leaves(And, f) == [f] && Leaves(And, b) == [b];
    assert ys[..1] == [Sym(No)] && ys[1..] == [f, b] && [f, b][..1] == [f] && [f, b][1..] == [b];
    assert Build(And, a, [Sym(No)]) == Sym(No) && Build(And, f, [f]) == f && Build(And, b, [b]) == b;
    assert Build(And, Bin(And, f, b), [f, b]) == Bin(And, f, b);
  }

  lemma ContradictionRefuted(s: Symbol, t: Symbol)
    requires Tristates(s, t)
    ensures Dups2(And, Contradiction(s, t)) == Changed(Bin(And, Sym(No), Neither(s, t)), 1)
  {
    hide *;
    ContradictionLeaves(s, t);
    EitherStays(s, t);
    EitherRefuted(s, t);
    RefuteThree(Either(s, t), Not(Sym(s)), Not(Sym(t)));
    ContradictionRows2(Either(s, t), Not(Sym(s)), Not(Sym(t)));
  }

  lemma EitherRefuted(s: Symbol, t: Symbol)
    requires Tristates(s, t)
    ensures !Refuted(And, Either(s, t), Not(Sym(s))) && !Refuted(And, Either(s, t), Not(Sym(t)))
      && Refuted(And, Either(s, t), Neither(s, t))
  {
    hide Transform, ExtractEq;
    EitherNegated(s, t);
    NeitherExtracts(s, t);
  }

  /** The result is n, so that it is exact if and only if the expression is not m:
      where s is m and t is n, for one, it is. */
  lemma Inexact(v: Env, s: Symbol, t: Symbol)
    requires Typed(v) && Tristates(s, t)
    ensures EliminateDups(Contradiction(s, t)) == Sym(No)
    ensures Value(v, EliminateDups(Contradiction(s, t))) == Value(v, Contradiction(s, t)) <==>
      Value(v, Contradiction(s, t)) != 1
    ensures v.tri(s) == 1 && v.tri(t) == 0 ==> Value(v, Contradiction(s, t)) == 1
  {
    hide Dups1, Dups2;
    ContradictionUnjoined(s, t);
    ContradictionRefuted(s, t);
    var e := Contradiction(s, t);
    assert Pass(e) == Changed(Bin(And, Sym(No), Neither(s, t)), 1);
    assert EliminateYn(Pass(e).e) == Sym(No);
    assert EliminateDups(Sym(No)) == Sym(No);
    ContradictionValue(v, s, t);
  }

  lemma ContradictionValue(v: Env, s: Symbol, t: Symbol)
    ensures var a, b := v.tri(s), v.tri(t);
      Value(v, Contradiction(s, t)) == TriAnd(TriOr(a, b), TriAnd(TriNot(a), TriNot(b)))
  {
    assert Value(v, Sym(s)) == v.tri(s) && Value(v, Sym(t)) == v.tri(t);
    assert Value(v, Either(s, t)) == TriOr(v.tri(s), v.tri(t));
    assert Value(v, Not(Sym(s))) == TriNot(v.tri(s)) && Value(v, Not(Sym(t))) == TriNot(v.tri(t));
    assert Value(v, Neither(s, t)) == TriAnd(TriNot(v.tri(s)), TriNot(v.tri(t)));
  }
}
