/** menu.c and expr.c: when menu_finalize puts an entry below the one before it. */
module MenuDeps {
  import opened Kconfig
  import opened Symbols
  import opened ExprEq
  import opened ExprTransform
  import opened ExprContradict
  import opened ExprExact
  import ExprDups

  /** expr_contains_symbol */
  predicate Contains(e: Expr, s: Symbol) {
    match e
    case Sym(t) => t == s
    case Equal(l, r) => l == s || r == s
    case Unequal(l, r) => l == s || r == s
    case Not(a) => Contains(a, s)
    case Bin(_, a, b) => Contains(a, s) || Contains(b, s)
  }

  /** expr_depends_symbol */
  predicate Depends(e: Expr, s: Symbol) {
    match e
    case Sym(t) => t == s
    case Equal(l, r) => l == s && (r == Yes || r == Mod)
    case Unequal(l, r) => l == s && r == No
    case Not(_) => false
    case Bin(op, a, b) => op == And && (Depends(a, s) || Depends(b, s))
  }

  /** The condition that an expression is not n, simplified. */
  function NotN(e: Option<Expr>): Expr {
    EliminateDups(Transform(if e.None? then Not(Sym(No)) else TransCompare(e.value, IsNot, No)))
  }

  /** An entry that is shown under the condition dep belongs below the entry before
      it, which has the symbol s and is shown under the condition base. */
  predicate Belongs(s: Symbol, base: Option<Expr>, dep: Option<Expr>) {
    && dep.Some? && Contains(dep.value, s)
    && (Depends(dep.value, s) || EliminateEq(NotN(dep), NotN(base)).b == Sym(Yes))
  }

  /** expr_contains_symbol finds the symbols of the expression. */
  lemma {:induction false} ContainsIs(e: Expr, s: Symbol)
    ensures Contains(e, s) <==> s in Syms(e)
  {
    match e
    case Not(a) => ContainsIs(a, s);
    case Bin(_, a, b) =>
      ContainsIs(a, s);
      ContainsIs(b, s);
    case _ =>
  }

  /** Where this holds, the symbol is not n. */
  predicate OnlyIf(x: Expr, s: Symbol) {
    x == Sym(s) || x == Equal(s, Yes) || x == Equal(s, Mod) || x == Unequal(s, No)
  }

  /** expr_depends_symbol is true if and only if one of the operands of an and says so. */
  lemma {:induction false} DependsIs(e: Expr, s: Symbol)
    ensures Depends(e, s) <==> exists x :: x in ExprDups.Leaves(And, e) && OnlyIf(x, s)
  {
    if IsOp(e, And) {
      DependsIs(e.left, s);
      DependsIs(e.right, s);
      var a, b := ExprDups.Leaves(And, e.left), ExprDups.Leaves(And, e.right);
      assert forall x :: x in a + b <==> x in a || x in b;
    } else {
      assert ExprDups.Leaves(And, e) == [e];
      assert e in [e];
    }
  }

  lemma {:induction false} DependsContains(e: Expr, s: Symbol)
    requires Depends(e, s)
    ensures Contains(e, s)
  {
    if e.Bin? {
      if Depends(e.left, s) { DependsContains(e.left, s); } else { DependsContains(e.right, s); }
    }
  }

  /** An entry with such an operand in its condition always goes below, and one that does
      not mention the symbol never does. */
  lemma BelongsWhere(s: Symbol, base: Option<Expr>, e: Expr)
    ensures (exists x :: x in ExprDups.Leaves(And, e) && OnlyIf(x, s)) ==> Belongs(s, base, Some(e))
    ensures s !in Syms(e) ==> !Belongs(s, base, Some(e))
  {
    DependsIs(e, s);
    ContainsIs(e, s);
    if Depends(e, s) { DependsContains(e, s); }
  }

  function Holds(v: Env, e: Option<Expr>): bool {
    e.None? || Value(v, e.value) != 0
  }

  // ----- what is left when the operands of another expression are removed -----

  lemma ApplyMono(op: Op, c: Tri, a: Tri, b: Tri)
    requires a <= b
    ensures op.Apply(c, a) <= op.Apply(c, b)
  {
  }

  /** If expr_eliminate_eq leaves y of the second expression, the first implies it,
      for all three values. */
  lemma EliminateEqImplies(v: Env, a: Expr, b: Expr)
    requires Typed(v) && EliminateEq(a, b).b == Sym(Yes)
    ensures Value(v, a) <= Value(v, b)
  {
    hide EliminateOp, Eq, Op.Apply;
    var x := if a.Bin? then EliminateOp(a.op, a, b) else Two(a, b);
    var y := if !SameType(x.a, x.b) && x.b.Bin? then EliminateOp(x.b.op, x.a, x.b) else x;
    YnValue(v, y.b);
    assert Value(v, y.b) == 2;
    if !SameType(x.a, x.b) && x.b.Bin? {
      var c := EliminateOpValue(v, x.b.op, x.a, x.b);
      ApplyMono(x.b.op, c, Value(v, y.a), Value(v, y.b));
    }
    if a.Bin? {
      var c := EliminateOpValue(v, a.op, a, b);
      ApplyMono(a.op, c, Value(v, x.a), Value(v, x.b));
    }
  }

  // ----- conditions are never m -----

  /** Nothing in the expression below the ands, ors and negations is m. */
  ghost predicate Crisp(v: Env, e: Expr) {
    match e
    case Not(a) => Crisp(v, a)
    case Bin(_, a, b) => Crisp(v, a) && Crisp(v, b)
    case _ => Value(v, e) != 1
  }

  lemma {:induction false} CrispValue(v: Env, e: Expr)
    requires Crisp(v, e)
    ensures Value(v, e) != 1
  {
    match e
    case Not(a) => CrispValue(v, a);
    case Bin(_, a, b) =>
      CrispValue(v, a);
      CrispValue(v, b);
    case _ =>
  }

  lemma {:induction false} CompareCrisp(v: Env, e: Expr, rel: Rel)
    ensures Crisp(v, TransCompare(e, rel, No))
  {
    match e
    case Not(a) => CompareCrisp(v, a, rel.Flip());
    case Bin(_, a, b) => CompareCrisp(v, a, Is); CompareCrisp(v, b, Is);
    case _ =>
  }

  lemma {:induction false} TransformCrisp(v: Env, e: Expr)
    requires Typed(v) && Crisp(v, e)
    ensures Crisp(v, Transform(e))
    decreases Weight(e)
  {
    match e
    case Bin(_, a, b) =>
      TransformCrisp(v, a);
      TransformCrisp(v, b);
    case Not(a) =>
      TransformCrisp(v, a);
      var x := Transform(a);
      if x.Not? { TransformCrisp(v, x.e); }
      if x.Bin? {
        PushWeight(x.op, x.op.Dual(), x.left, x.right);
        TransformCrisp(v, Bin(x.op.Dual(), Not(x.left), Not(x.right)));
      }
    case Equal(l, r) => if l.Type() == Boolean { BooleanCompare(v, l); }
    case Unequal(l, r) => if l.Type() == Boolean { BooleanCompare(v, l); }
    case Sym(_) =>
  }

  /** The simplified condition is y where the expression is not n, and n where it
      is, if no negated operand is m. */
  lemma NotNValue(v: Env, e: Option<Expr>)
    requires Typed(v) && (e.Some? ==> Comparable(v, e.value) && NoNegatedMod(v, e.value))
    ensures Value(v, NotN(e)) == Truth(Holds(v, e))
  {
    hide EliminateDups;
    var c := if e.None? then Not(Sym(No)) else TransCompare(e.value, IsNot, No);
    if e.Some? {
      CompareCrisp(v, e.value, IsNot);
      TransCompareValue(v, e.value, IsNot, No);
    }
    TransformValue(v, c);
    TransformCrisp(v, c);
    CrispValue(v, Transform(c));
    EliminateDupsDecided(v, Transform(c));
  }

  lemma {:induction false} DependsValue(v: Env, e: Expr, s: Symbol)
    requires Typed(v) && Depends(e, s) && v.str(s) == TriName(v.tri(s)) && Value(v, e) != 0
    ensures v.tri(s) != 0
  {
    if e.Bin? {
      if Depends(e.left, s) { DependsValue(v, e.left, s); } else { DependsValue(v, e.right, s); }
    } else {
      assert "n"[0] != "y"[0] && "m"[0] != "n"[0];
    }
  }

  /** An entry that is put below another is shown only where the other one is, or
      where its symbol is not n; as long as no negated operand of the conditions is
      m. */
  lemma BelongsShown(v: Env, s: Symbol, base: Option<Expr>, dep: Option<Expr>)
    requires Typed(v) && Belongs(s, base, dep) && v.str(s) == TriName(v.tri(s))
    requires Comparable(v, dep.value) && NoNegatedMod(v, dep.value)
    requires base.Some? ==> Comparable(v, base.value) && NoNegatedMod(v, base.value)
    ensures Holds(v, dep) ==> v.tri(s) != 0 || Holds(v, base)
  {
    hide NotN, EliminateEq;
    if Holds(v, dep) {
      if Depends(dep.value, s) {
        DependsValue(v, dep.value, s);
      } else {
        NotNValue(v, dep);
        NotNValue(v, base);
        EliminateEqImplies(v, NotN(dep), NotN(base));
      }
    }
  }
}
