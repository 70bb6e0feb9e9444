/** expr.c, third part: replacing two operands of an and or an or by one. */
module ExprJoin {
  import opened Kconfig
  import opened ExprEq

  predicate Comparison(e: Expr) { e.Sym? || e.Equal? || e.Unequal? }

  function LeftSymbol(e: Expr): Symbol
    requires Comparison(e)
  {
    match e case Sym(s) => s case Equal(l, _) => l case Unequal(l, _) => l
  }

  /** The symbol that two operands must share; a negated second operand has to
      be a plain symbol. */
  function Shared(a: Expr, b: Expr): Option<Symbol> {
    if a.Bin? || b.Bin? then None
    else if a.Not? && !Comparison(a.e) then None
    else if b.Not? && !b.e.Sym? then None
    else
      var s := LeftSymbol(if a.Not? then a.e else a);
      var t := LeftSymbol(if b.Not? then b.e else b);
      if s == t && (s.Type() == Boolean || s.Type() == Tristate) then Some(s) else None
  }

  predicate EqualTo(e: Expr, r: Symbol) { e.Equal? && e.r == r }
  predicate UnequalTo(e: Expr, r: Symbol) { e.Unequal? && e.r == r }

  predicate BothEqual(a: Expr, b: Expr, r: Symbol, q: Symbol) {
    (EqualTo(a, r) && EqualTo(b, q)) || (EqualTo(a, q) && EqualTo(b, r))
  }

  predicate BothUnequal(a: Expr, b: Expr, r: Symbol, q: Symbol) {
    (UnequalTo(a, r) && UnequalTo(b, q)) || (UnequalTo(a, q) && UnequalTo(b, r))
  }

  predicate SymAndEqual(a: Expr, b: Expr, r: Symbol) { (a.Sym? && EqualTo(b, r)) || (b.Sym? && EqualTo(a, r)) }
  predicate SymAndUnequal(a: Expr, b: Expr, r: Symbol) { (a.Sym? && UnequalTo(b, r)) || (b.Sym? && UnequalTo(a, r)) }

  /** expr_join_or */
  function JoinOr(a: Expr, b: Expr): Option<Expr> {
    if Eq(a, b) then Some(a)
    else match Shared(a, b)
      case None => None
      case Some(s) =>
        if s.Type() == Tristate && BothEqual(a, b, Yes, Mod) then Some(Unequal(s, No))
        else if s.Type() == Tristate && BothEqual(a, b, Yes, No) then Some(Unequal(s, Mod))
        else if s.Type() == Tristate && BothEqual(a, b, Mod, No) then Some(Unequal(s, Yes))
        else if s.Type() == Boolean
          && ((a.Not? && a.e.Sym? && b.Sym?) || (b.Not? && b.e.Sym? && a.Sym?)) then Some(Sym(Yes))
        else None
  }

  /** (a = p) && (a != q), for two constants */
  function JoinConstants(s: Symbol, p: Symbol, q: Symbol): Expr {
    if p != q then Equal(s, p) else Sym(No)
  }

  /** expr_join_and */
  function JoinAnd(a: Expr, b: Expr): Option<Expr> {
    if Eq(a, b) then Some(a)
    else match Shared(a, b)
      case None => None
      case Some(s) =>
        if SymAndEqual(a, b, Yes) then Some(Equal(s, Yes))
        else if SymAndUnequal(a, b, No) then Some(Sym(s))
        else if SymAndUnequal(a, b, Mod) then Some(Equal(s, Yes))
        else if s.Type() != Tristate then None
        else if a.Equal? && b.Unequal? && a.r.IsConst() && b.r.IsConst() then Some(JoinConstants(s, a.r, b.r))
        else if a.Unequal? && b.Equal? && a.r.IsConst() && b.r.IsConst() then Some(JoinConstants(s, b.r, a.r))
        else if BothUnequal(a, b, Yes, No) then Some(Equal(s, Mod))
        else if BothUnequal(a, b, Yes, Mod) then Some(Equal(s, No))
        else if BothUnequal(a, b, Mod, No) then Some(Equal(s, Yes))
        else None
  }

  function Join(op: Op, a: Expr, b: Expr): Option<Expr> { if op == And then JoinAnd(a, b) else JoinOr(a, b) }

  /** The value of a typed symbol and the strings it compares with. */
  lemma Strings(v: Env, s: Symbol)
    requires Typed(v) && (s.Type() == Boolean || s.Type() == Tristate)
    ensures v.str(s) == v.str(Yes) <==> v.tri(s) == 2
    ensures v.str(s) == v.str(Mod) <==> v.tri(s) == 1
    ensures v.str(s) == v.str(No) <==> v.tri(s) == 0
    ensures s.Type() == Boolean ==> v.tri(s) != 1
  {
    assert TypedAt(v, s);
    assert "n"[0] != "y"[0] && "m"[0] != "y"[0] && "m"[0] != "n"[0];
  }

  /** Different constants are different strings. */
  lemma Constants(v: Env, p: Symbol, q: Symbol)
    requires Typed(v) && p.IsConst() && q.IsConst()
    ensures v.str(p) == v.str(q) <==> p == q
  {
    assert TypedAt(v, p) && TypedAt(v, q);
    assert "n"[0] != "y"[0] && "m"[0] != "y"[0] && "m"[0] != "n"[0];
  }

  /** Joining is exact in every well-typed assignment. */
  lemma JoinOrValue(v: Env, a: Expr, b: Expr)
    requires Typed(v) && JoinOr(a, b).Some?
    ensures Value(v, JoinOr(a, b).value) == TriOr(Value(v, a), Value(v, b))
  {
    hide Eq;
    if Eq(a, b) {
      EqSound(v, a, b);
    } else {
      Strings(v, Shared(a, b).value);
    }
  }

  lemma JoinAndValue(v: Env, a: Expr, b: Expr)
    requires Typed(v) && JoinAnd(a, b).Some?
    ensures Value(v, JoinAnd(a, b).value) == TriAnd(Value(v, a), Value(v, b))
  {
    hide Eq;
    if Eq(a, b) {
      EqSound(v, a, b);
    } else {
      Strings(v, Shared(a, b).value);
      if a.Equal? && b.Unequal? && a.r.IsConst() && b.r.IsConst() { Constants(v, a.r, b.r); }
      if a.Unequal? && b.Equal? && a.r.IsConst() && b.r.IsConst() { Constants(v, a.r, b.r); }
    }
  }

  lemma JoinValue(v: Env, op: Op, a: Expr, b: Expr)
    requires Typed(v) && Join(op, a, b).Some?
    ensures Value(v, Join(op, a, b).value) == op.Apply(Value(v, a), Value(v, b))
  {
    if op == And { JoinAndValue(v, a, b); } else { JoinOrValue(v, a, b); }
  }

  /** The result is a copy of the first operand, or a single node. */
  lemma JoinSize(op: Op, a: Expr, b: Expr)
    requires Join(op, a, b).Some?
    ensures Join(op, a, b).value == a || (!Join(op, a, b).value.Bin? && Size(Join(op, a, b).value) == 1)
    ensures IsYn(a) && !b.Bin? ==> Join(op, a, b).value == a && a == b
    ensures IsYn(b) && !a.Bin? ==> Join(op, a, b).value == b && a == b
    ensures a.Bin? ==> IsOp(b, a.op)
  {
    hide Eq;
    EqShape(a, b);
  }

  lemma EqShape(a: Expr, b: Expr)
    ensures Eq(a, b) && (!a.Bin? || !b.Bin?) && (a.Sym? || b.Sym?) ==> a == b
    ensures Eq(a, b) && a.Bin? ==> IsOp(b, a.op)
    ensures Eq(a, b) && b.Bin? ==> a.Bin?
  {
  }
}
