/** expr.c: what the rewriting of expressions keeps of their form. Negations stay over
    single symbols, and no symbol comes under a negation that was not there before. */
module ExprGood {
  import opened Kconfig
  import opened ExprEq
  import opened ExprTransform
  import opened ExprJoin
  import opened ExprDups
  import opened ExprContradict
  import opened MenuDeps

  /** In normal form; and, if `full`, symbols compare as their values do and none that is
      negated is m. */
  ghost predicate Good(v: Env, full: bool, e: Expr) {
    match e
    case Sym(s) => full ==> v.str(s) == TriName(v.tri(s))
    case Equal(l, r) => l.Type() != Boolean || !Special(r)
    case Unequal(l, r) => l.Type() != Boolean || !Special(r)
    case Not(a) => a.Sym? && !Special(a.sym) && Good(v, full, a) && (full ==> v.tri(a.sym) != 1)
    case Bin(_, a, b) => Good(v, full, a) && Good(v, full, b)
  }

  lemma {:induction false} GoodMeans(v: Env, full: bool, e: Expr)
    requires Good(v, full, e)
    ensures Normal(e) && (full ==> Comparable(v, e) && NoNegatedMod(v, e))
  {
    if e.Bin? {
      GoodMeans(v, full, e.left);
      GoodMeans(v, full, e.right);
    }
  }

  ghost predicate AllGood(v: Env, full: bool, xs: seq<Expr>) {
    forall k :: 0 <= k < |xs| ==> Good(v, full, xs[k])
  }

  lemma SpecialGood(v: Env, full: bool, op: Op)
    requires Typed(v)
    ensures Good(v, full, Sym(op.Unit())) && Good(v, full, Sym(op.Zero()))
  {
  }

  lemma JoinGood(v: Env, full: bool, op: Op, a: Expr, b: Expr)
    requires Typed(v) && Good(v, full, a) && Good(v, full, b) && Join(op, a, b).Some?
    ensures Good(v, full, Join(op, a, b).value)
  {
    hide Eq;
    if !Eq(a, b) { assert TypedAt(v, Shared(a, b).value); }
  }

  lemma {:induction false} BuildGood(v: Env, full: bool, op: Op, e: Expr, xs: seq<Expr>)
    requires |xs| == |Leaves(op, e)|
    ensures Good(v, full, Build(op, e, xs)) <==> AllGood(v, full, xs)
  {
    if IsOp(e, op) {
      var n := |Leaves(op, e.left)|;
      BuildGood(v, full, op, e.left, xs[..n]);
      BuildGood(v, full, op, e.right, xs[n..]);
      assert xs == xs[..n] + xs[n..];
    } else {
      assert xs == [xs[0]];
    }
  }

  lemma GoodTwo(v: Env, full: bool, xs: seq<Expr>, i: nat, j: nat, a: Expr, b: Expr)
    requires i < |xs| && j < |xs| && AllGood(v, full, xs) && Good(v, full, a) && Good(v, full, b)
    ensures AllGood(v, full, xs[i := a][j := b])
  {
    hide Good;
  }

  // ----- repeated operands -----

  lemma {:induction false} JoinPairGood(v: Env, full: bool, op: Op, a: Expr, b: Expr)
    requires Typed(v) && !IsOp(a, op) && !IsOp(b, op) && Good(v, full, a) && Good(v, full, b)
    ensures Good(v, full, JoinPair(op, a, b).a) && Good(v, full, JoinPair(op, a, b).b)
    decreases Size(a) + Size(b), 0
  {
    hide Join, Good;
    var d := if a.Bin? then Dups1(a.op, a) else Changed(a, 0);
    if a.Bin? { Dups1Good(v, full, a.op, a); }
    SpecialGood(v, full, op);
    if Join(op, d.e, b).Some? { JoinGood(v, full, op, d.e, b); }
  }

  lemma {:induction false} JoinRowGood(v: Env, full: bool, op: Op, xs: seq<Expr>, i: nat, j: nat)
    requires Typed(v) && i < |xs| && j <= |xs| && Operands(op, xs) && AllGood(v, full, xs)
    ensures AllGood(v, full, JoinRow(op, xs, i, j).xs)
    decreases Total(xs), 1, |xs| - j
  {
    hide JoinPair, Good;
    if j < |xs| {
      if i == j {
        JoinRowGood(v, full, op, xs, i, j + 1);
      } else {
        var p := JoinPair(op, xs[i], xs[j]);
        PutTwo(xs, i, j, xs[i], xs[j]);
        PutTwo(xs, i, j, p.a, p.b);
        JoinPairGood(v, full, op, xs[i], xs[j]);
        GoodTwo(v, full, xs, i, j, p.a, p.b);
        JoinRowGood(v, full, op, xs[i := p.a][j := p.b], i, j + 1);
      }
    }
  }

  lemma {:induction false} JoinRowsGood(v: Env, full: bool, op: Op, xs: seq<Expr>, i: nat)
    requires Typed(v) && i <= |xs| && Operands(op, xs) && AllGood(v, full, xs)
    ensures AllGood(v, full, JoinRows(op, xs, i).xs)
    decreases Total(xs), 2, |xs| - i
  {
    hide JoinRow, AllGood;
    if i < |xs| {
      JoinRowGood(v, full, op, xs, i, 0);
      JoinRowsGood(v, full, op, JoinRow(op, xs, i, 0).xs, i + 1);
    }
  }

  lemma {:induction false} Dups1Good(v: Env, full: bool, op: Op, e: Expr)
    requires Typed(v) && IsOp(e, op) && Good(v, full, e)
    ensures Good(v, full, Dups1(op, e).e)
    decreases Size(e), 0
  {
    hide JoinRows, Leaves, Build, AllGood, Good;
    var xs := Leaves(op, e);
    LeavesSize(op, e);
    BuildSame(op, e);
    BuildGood(v, full, op, e, xs);
    JoinRowsGood(v, full, op, xs, 0);
    BuildGood(v, full, op, e, JoinRows(op, xs, 0).xs);
  }

  // ----- contradicting operands -----

  lemma {:induction false} AgainstGood(v: Env, full: bool, op: Op, e: Expr, lo: nat, ws: List, i: nat)
    requires Typed(v) && Operands(op, ws.xs) && i < |ws.xs| && lo + |Leaves(op, e)| <= |ws.xs|
    requires AllGood(v, full, ws.xs)
    ensures AllGood(v, full, Against(op, e, lo, ws, i).xs)
    decreases Size(ws.xs[i]), 4
  {
    hide Refuted, Build, Leaves, Dups2, Good;
    SpecialGood(v, full, op);
    if ws.xs[i].Bin? { Dups2Good(v, full, ws.xs[i].op, ws.xs[i]); }
  }

  lemma {:induction false} RefuteByGood(v: Env, full: bool, op: Op, e: Expr, lo: nat, xs: seq<Expr>, i: nat)
    requires Typed(v) && Operands(op, xs) && i < |xs| && lo + |Leaves(op, e)| <= |xs| && AllGood(v, full, xs)
    ensures AllGood(v, full, RefuteBy(op, e, lo, xs, i).xs)
    decreases Size(xs[i]), 5, e
  {
    hide AllGood, Against;
    if IsOp(e, op) {
      var x := RefuteBy(op, e.left, lo, xs, i);
      RefuteByGood(v, full, op, e.left, lo, xs, i);
      var y := RefuteBy(op, e.right, lo + |Leaves(op, e.left)|, x.xs, i);
      RefuteByGood(v, full, op, e.right, lo + |Leaves(op, e.left)|, x.xs, i);
      AgainstGood(v, full, op, e, lo, List(y.xs, x.n + y.n), i);
    } else if i != lo {
      AgainstGood(v, full, op, e, lo, List(xs, 0), i);
    }
  }

  lemma {:induction false} RefuteRowsGood(v: Env, full: bool, op: Op, e: Expr, xs: seq<Expr>, i: nat)
    requires Typed(v) && Operands(op, xs) && i <= |xs| == |Leaves(op, e)| && AllGood(v, full, xs)
    ensures AllGood(v, full, RefuteRows(op, e, xs, i).xs)
    decreases Total(xs), 6, |xs| - i
  {
    hide RefuteBy, AllGood;
    if i < |xs| {
      TotalUpdate(xs, i, xs[i]);
      var p := RefuteBy(op, e, 0, xs, i);
      TotalUpdate(xs, i, p.xs[i]);
      RefuteByGood(v, full, op, e, 0, xs, i);
      RefuteRowsGood(v, full, op, e, p.xs, i + 1);
    }
  }

  lemma {:induction false} Dups2Good(v: Env, full: bool, op: Op, e: Expr)
    requires Typed(v) && IsOp(e, op) && Good(v, full, e)
    ensures Good(v, full, Dups2(op, e).e)
    decreases Size(e), 0
  {
    hide RefuteRows, Leaves, Build, AllGood, Good;
    var xs := Leaves(op, e);
    LeavesSize(op, e);
    BuildSame(op, e);
    BuildGood(v, full, op, e, xs);
    RefuteRowsGood(v, full, op, e, xs, 0);
    BuildGood(v, full, op, e, RefuteRows(op, e, xs, 0).xs);
  }

  // ----- the whole rewriting -----

  lemma {:induction false} YnGood(v: Env, full: bool, e: Expr)
    requires Typed(v) && Good(v, full, e)
    ensures Good(v, full, EliminateYn(e))
  {
    if e.Bin? {
      YnGood(v, full, e.left);
      YnGood(v, full, e.right);
    }
  }

  /** expr_eliminate_dups keeps the form. */
  lemma {:induction false} DupsGood(v: Env, full: bool, e: Expr)
    requires Typed(v) && Good(v, full, e)
    ensures Good(v, full, EliminateDups(e))
    decreases Size(e)
  {
    hide Dups1, Dups2, Good;
    if e.Bin? {
      PassShrinks(e);
      Dups1Good(v, full, e.op, e);
      Dups2Good(v, full, e.op, Dups1(e.op, e).e);
      if Pass(e).n > 0 {
        YnGood(v, full, Pass(e).e);
        DupsGood(v, full, EliminateYn(Pass(e).e));
      }
    }
  }

  /** expr_trans_bool keeps it too. */
  lemma {:induction false} BoolGood(v: Env, full: bool, e: Expr)
    requires Typed(v) && Good(v, full, e)
    ensures Good(v, full, TransBool(e))
  {
    if e.Bin? {
      BoolGood(v, full, e.left);
      BoolGood(v, full, e.right);
    }
    if e.Unequal? { assert TypedAt(v, e.l); }
  }

  // ----- expr_transform -----

  /** Nothing in a negation is m. */
  ghost predicate Steady(v: Env, e: Expr) {
    match e
    case Not(a) => Crisp(v, a)
    case Bin(_, a, b) => Steady(v, a) && Steady(v, b)
    case _ => true
  }

  lemma {:induction false} CrispGood(v: Env, e: Expr)
    requires Crisp(v, e) && Normal(e) && Comparable(v, e)
    ensures Good(v, true, e)
  {
    if e.Bin? {
      CrispGood(v, e.left);
      CrispGood(v, e.right);
    }
  }

  lemma {:induction false} NormalGood(v: Env, e: Expr)
    requires Normal(e)
    ensures Good(v, false, e)
  {
    if e.Bin? {
      NormalGood(v, e.left);
      NormalGood(v, e.right);
    }
  }

  lemma {:induction false} TransformComparable(v: Env, e: Expr)
    requires Typed(v) && Comparable(v, e)
    ensures Comparable(v, Transform(e))
    decreases Weight(e)
  {
    match e
    case Bin(_, a, b) =>
      TransformComparable(v, a);
      TransformComparable(v, b);
    case Not(a) =>
      TransformComparable(v, a);
      var x := Transform(a);
      if x.Not? { TransformComparable(v, x.e); }
      if x.Bin? {
        PushWeight(x.op, x.op.Dual(), x.left, x.right);
        TransformComparable(v, Bin(x.op.Dual(), Not(x.left), Not(x.right)));
      }
    case Equal(l, _) => assert TypedAt(v, l);
    case Unequal(l, _) => assert TypedAt(v, l);
    case Sym(_) =>
  }

  /** Transforming gives the form, whatever is given. */
  lemma {:induction false} TransformGood(v: Env, full: bool, e: Expr)
    requires Typed(v) && (full ==> Comparable(v, e) && Steady(v, e))
    ensures Good(v, full, Transform(e))
  {
    TransformNormal(e);
    if !full {
      NormalGood(v, Transform(e));
    } else {
      match e
      case Bin(_, a, b) =>
        TransformGood(v, full, a);
        TransformGood(v, full, b);
      case Not(a) =>
        TransformCrisp(v, e);
        TransformComparable(v, e);
        CrispGood(v, Transform(e));
      case Equal(l, _) => assert TypedAt(v, l);
      case Unequal(l, _) => assert TypedAt(v, l);
      case Sym(_) =>
    }
  }
}
