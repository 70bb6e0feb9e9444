/** expr.c: what expr_eliminate_dups does to the value.  It never changes y or n;
    what is m may become y or n, but only if an operand of the other kind is m. */
module ExprExact {
  import opened Kconfig
  import opened ExprTransform
  import opened ExprJoin
  import opened ExprDups
  import opened ExprContradict

  /** A value other than m stays. */
  predicate Kept(x: Tri, y: Tri) { x != 1 ==> y == x }

  lemma KeptApply(op: Op, x: Tri, y: Tri, r: Tri)
    requires Kept(x, y)
    ensures Kept(op.Apply(x, r), op.Apply(y, r))
  {
  }

  /** As an operand of op, e has no ands or ors of the other kind that are m, at
      any depth. */
  ghost predicate Under(v: Env, op: Op, e: Expr)
    decreases e
  {
    e.Bin? ==> (e.op == op || Value(v, e) != 1) && Under(v, e.op, e.left) && Under(v, e.op, e.right)
  }

  /** No operand of the other kind is m. */
  ghost predicate Settled(v: Env, e: Expr) { e.Bin? ==> Under(v, e.op, e) }

  ghost predicate AllUnder(v: Env, op: Op, xs: seq<Expr>) {
    forall k :: 0 <= k < |xs| ==> Under(v, op, xs[k])
  }

  lemma {:induction false} BuildUnder(v: Env, op: Op, e: Expr, xs: seq<Expr>)
    requires |xs| == |Leaves(op, e)|
    ensures AllUnder(v, op, xs) <==> Under(v, op, Build(op, e, xs))
  {
    if IsOp(e, op) {
      var n := |Leaves(op, e.left)|;
      var l, r := xs[..n], xs[n..];
      BuildUnder(v, op, e.left, l);
      BuildUnder(v, op, e.right, r);
      if AllUnder(v, op, l) && AllUnder(v, op, r) {
        forall k | 0 <= k < |xs|
          ensures Under(v, op, xs[k])
        {
          if k < n { assert Under(v, op, l[k]); } else { assert Under(v, op, r[k - n]); }
        }
      }
    } else {
      assert xs == [xs[0]];
    }
  }

  /** A group of the operands adds nothing to all of them. */
  lemma FoldPart(v: Env, op: Op, xs: seq<Expr>, lo: nat, hi: nat)
    requires lo <= hi <= |xs|
    ensures op.Apply(Fold(v, op, xs), Fold(v, op, xs[lo..hi])) == Fold(v, op, xs)
  {
    assert xs == xs[..lo] + xs[lo..hi] + xs[hi..];
    FoldConcat(v, op, xs[..lo] + xs[lo..hi], xs[hi..]);
    FoldConcat(v, op, xs[..lo], xs[lo..hi]);
  }

  /** Replacing an operand whose negation is implied by the operands, b among
      them, by the symbol that decides is exact if and only if the operand is
      not m, or the other operands decide anyway. */
  lemma RefuteValue(v: Env, op: Op, xs: seq<Expr>, i: nat, b: Expr)
    requires Typed(v) && i < |xs| && Refuted(op, xs[i], b)
    requires op.Apply(Fold(v, op, xs), Value(v, b)) == Fold(v, op, xs)
    ensures Fold(v, op, xs[i := Sym(op.Zero())]) == Fold(v, op, xs)
       <==> Value(v, xs[i]) != 1 || Fold(v, op, Others(xs, i)) == v.tri(op.Zero())
  {
    hide Fold, ExtractEq, Transform;
    var ys := xs[i := Sym(op.Zero())];
    var neg := Transform(Not(xs[i]));
    TransformValue(v, Not(xs[i]));
    ExtractAll(v, op, neg, b);
    FoldAt(v, op, xs, i);
    FoldAt(v, op, ys, i);
    assert Others(xs, i) == Others(ys, i);
    UnitValue(v, op, Fold(v, op, Others(xs, i)));
  }

  /** What becomes of operands xs: their value if it is not m, and in any case if
      no operand of the other kind is m, which is so afterwards too. */
  ghost predicate Good(v: Env, op: Op, xs: seq<Expr>, ys: seq<Expr>) {
    && Kept(Fold(v, op, xs), Fold(v, op, ys))
    && (AllUnder(v, op, xs) ==> Fold(v, op, ys) == Fold(v, op, xs) && AllUnder(v, op, ys))
  }

  /** The same for an operand of op. */
  ghost predicate GoodAt(v: Env, op: Op, a: Expr, d: Expr) {
    && Kept(Value(v, a), Value(v, d))
    && (Under(v, op, a) ==> Value(v, d) == Value(v, a) && Under(v, op, d))
  }

  lemma {:induction false} SimplifyGood(v: Env, op: Op, a: Expr)
    requires Typed(v) && !IsOp(a, op)
    ensures GoodAt(v, op, a, Simplify(op, a).e)
    decreases Size(a), 3
  {
    if a.Bin? { Dups2Good(v, a.op, a); }
  }

  /** Operand i has been simplified to d, and perhaps refuted by b. */
  lemma RefutedGood(v: Env, op: Op, xs: seq<Expr>, i: nat, d: Expr, b: Expr)
    requires Typed(v) && i < |xs| && GoodAt(v, op, xs[i], d) && !IsOp(d, op)
    requires op.Apply(Fold(v, op, xs[i := d]), Value(v, b)) == Fold(v, op, xs[i := d])
    ensures Good(v, op, xs, xs[i := d])
    ensures Refuted(op, d, b) ==> Good(v, op, xs, xs[i := Sym(op.Zero())])
  {
    hide Fold, Refuted, Under;
    var ys, zs := xs[i := d], xs[i := Sym(op.Zero())];
    var r := Fold(v, op, Others(xs, i));
    FoldAt(v, op, xs, i);
    FoldAt(v, op, ys, i);
    assert Others(xs, i) == Others(ys, i);
    KeptApply(op, Value(v, xs[i]), Value(v, d), r);
    AllUpdate(v, op, xs, i, d);
    if Refuted(op, d, b) {
      assert ys[i := Sym(op.Zero())] == zs;
      RefuteValue(v, op, ys, i, b);
      RefutedBin(v, op, d, b);
      UnitValue(v, op, r);
      AllUpdate(v, op, xs, i, Sym(op.Zero()));
    }
  }

  lemma RefutedBin(v: Env, op: Op, d: Expr, b: Expr)
    requires Refuted(op, d, b) && !IsOp(d, op)
    ensures (Under(v, op, d) ==> Value(v, d) != 1) && Under(v, op, Sym(op.Zero()))
  {
    hide ExtractEq, Transform;
  }

  lemma AllUpdate(v: Env, op: Op, xs: seq<Expr>, i: nat, d: Expr)
    requires i < |xs|
    ensures AllUnder(v, op, xs) ==> Under(v, op, xs[i]) && (Under(v, op, d) ==> AllUnder(v, op, xs[i := d]))
  {
  }

  lemma {:induction false} RefuteByGood(v: Env, op: Op, e: Expr, lo: nat, xs: seq<Expr>, i: nat)
    requires Typed(v) && Operands(op, xs) && i < |xs| && lo + |Leaves(op, e)| <= |xs|
    ensures Good(v, op, xs, RefuteBy(op, e, lo, xs, i).xs)
    decreases Size(xs[i]), 5, e
  {
    hide Fold, AllUnder, Against;
    if IsOp(e, op) {
      var x := RefuteBy(op, e.left, lo, xs, i);
      RefuteByGood(v, op, e.left, lo, xs, i);
      var y := RefuteBy(op, e.right, lo + |Leaves(op, e.left)|, x.xs, i);
      RefuteByGood(v, op, e.right, lo + |Leaves(op, e.left)|, x.xs, i);
      AgainstGood(v, op, e, lo, List(y.xs, x.n + y.n), i);
    } else if i != lo {
      AgainstGood(v, op, e, lo, List(xs, 0), i);
    }
  }

  lemma {:induction false} AgainstGood(v: Env, op: Op, e: Expr, lo: nat, ws: List, i: nat)
    requires Typed(v) && Operands(op, ws.xs) && i < |ws.xs| && lo + |Leaves(op, e)| <= |ws.xs|
    ensures Good(v, op, ws.xs, Against(op, e, lo, ws, i).xs)
    decreases Size(ws.xs[i]), 4
  {
    hide Fold, Refuted, Under, Good, GoodAt, Build, Leaves, Simplify;
    var d := Simplify(op, ws.xs[i]);
    SimplifyGood(v, op, ws.xs[i]);
    var zs, m := ws.xs[i := d.e], |Leaves(op, e)|;
    BuildValue(v, op, e, zs[lo..lo + m]);
    FoldPart(v, op, zs, lo, lo + m);
    assert zs[i := Sym(op.Zero())] == ws.xs[i := Sym(op.Zero())];
    RefutedGood(v, op, ws.xs, i, d.e, Build(op, e, zs[lo..lo + m]));
  }

  lemma {:induction false} RefuteRowsGood(v: Env, op: Op, e: Expr, xs: seq<Expr>, i: nat)
    requires Typed(v) && Operands(op, xs) && i <= |xs| == |Leaves(op, e)|
    ensures Good(v, op, xs, RefuteRows(op, e, xs, i).xs)
    decreases Total(xs), 6, |xs| - i
  {
    hide Fold, RefuteBy, AllUnder;
    if i < |xs| {
      TotalUpdate(xs, i, xs[i]);
      var p := RefuteBy(op, e, 0, xs, i);
      TotalUpdate(xs, i, p.xs[i]);
      RefuteByGood(v, op, e, 0, xs, i);
      RefuteRowsGood(v, op, e, p.xs, i + 1);
    }
  }

  /** Removing contradictions once. */
  lemma {:induction false} Dups2Good(v: Env, op: Op, e: Expr)
    requires Typed(v) && IsOp(e, op)
    ensures GoodAt(v, op, e, Dups2(op, e).e)
    decreases Size(e), 0
  {
    hide Fold, RefuteRows, Leaves, Build, AllUnder, Under;
    var xs := Leaves(op, e);
    LeavesSize(op, e);
    BuildSame(op, e);
    BuildUnder(v, op, e, xs);
    RefuteRowsGood(v, op, e, xs, 0);
    var ys := RefuteRows(op, e, xs, 0).xs;
    BuildUnder(v, op, e, ys);
    BuildValue(v, op, e, xs);
    BuildValue(v, op, e, ys);
  }

  // ----- joining operands, and removing constants -----

  lemma {:induction false} JoinPairUnder(v: Env, op: Op, a: Expr, b: Expr)
    requires Typed(v) && !IsOp(a, op) && !IsOp(b, op) && Under(v, op, a) && Under(v, op, b)
    ensures Under(v, op, JoinPair(op, a, b).a) && Under(v, op, JoinPair(op, a, b).b)
    decreases Size(a) + Size(b), 0
  {
    hide Join, Dups1;
    var d := if a.Bin? then Dups1(a.op, a) else Changed(a, 0);
    if a.Bin? {
      Dups1Value(v, a.op, a);
      Dups1Under(v, a.op, a);
    }
    if Join(op, d.e, b).Some? { JoinSize(op, d.e, b); }
  }

  lemma {:induction false} JoinRowUnder(v: Env, op: Op, xs: seq<Expr>, i: nat, j: nat)
    requires Typed(v) && i < |xs| && j <= |xs| && Operands(op, xs) && AllUnder(v, op, xs)
    ensures AllUnder(v, op, JoinRow(op, xs, i, j).xs)
    decreases Total(xs), 1, |xs| - j
  {
    hide JoinPair, Under;
    if j < |xs| {
      if i == j {
        JoinRowUnder(v, op, xs, i, j + 1);
      } else {
        var p := JoinPair(op, xs[i], xs[j]);
        PutTwo(xs, i, j, xs[i], xs[j]);
        PutTwo(xs, i, j, p.a, p.b);
        JoinPairUnder(v, op, xs[i], xs[j]);
        JoinRowUnder(v, op, xs[i := p.a][j := p.b], i, j + 1);
      }
    }
  }

  lemma {:induction false} JoinRowsUnder(v: Env, op: Op, xs: seq<Expr>, i: nat)
    requires Typed(v) && i <= |xs| && Operands(op, xs) && AllUnder(v, op, xs)
    ensures AllUnder(v, op, JoinRows(op, xs, i).xs)
    decreases Total(xs), 2, |xs| - i
  {
    hide JoinRow, AllUnder;
    if i < |xs| {
      JoinRowUnder(v, op, xs, i, 0);
      JoinRowsUnder(v, op, JoinRow(op, xs, i, 0).xs, i + 1);
    }
  }

  lemma {:induction false} Dups1Under(v: Env, op: Op, e: Expr)
    requires Typed(v) && IsOp(e, op) && Under(v, op, e)
    ensures Under(v, op, Dups1(op, e).e)
    decreases Size(e), 0
  {
    hide JoinRows, Leaves, Build, AllUnder, Under;
    var xs := Leaves(op, e);
    LeavesSize(op, e);
    BuildSame(op, e);
    BuildUnder(v, op, e, xs);
    JoinRowsUnder(v, op, xs, 0);
    BuildUnder(v, op, e, JoinRows(op, xs, 0).xs);
  }

  lemma {:induction false} YnUnder(v: Env, op: Op, e: Expr)
    requires Typed(v) && Under(v, op, e)
    ensures Under(v, op, EliminateYn(e))
    decreases e
  {
    if e.Bin? {
      YnValue(v, e);
      YnUnder(v, e.op, e.left);
      YnUnder(v, e.op, e.right);
    }
  }

  // ----- the value through all rounds -----

  lemma PassGood(v: Env, e: Expr)
    requires Typed(v) && e.Bin?
    ensures Kept(Value(v, e), Value(v, EliminateYn(Pass(e).e)))
    ensures Settled(v, e) ==> Value(v, EliminateYn(Pass(e).e)) == Value(v, e) && Settled(v, EliminateYn(Pass(e).e))
  {
    hide Dups1, Dups2, EliminateYn;
    var x, p := Dups1(e.op, e), Pass(e);
    Dups1Value(v, e.op, e);
    if Settled(v, e) { Dups1Under(v, e.op, e); }
    Dups2Good(v, e.op, x.e);
    YnValue(v, p.e);
    if Settled(v, e) { YnUnder(v, e.op, p.e); }
  }

  lemma {:induction false} EliminateDupsGood(v: Env, e: Expr)
    requires Typed(v)
    ensures Kept(Value(v, e), Value(v, EliminateDups(e)))
    ensures Settled(v, e) ==> Value(v, EliminateDups(e)) == Value(v, e)
    decreases Size(e)
  {
    hide Pass, Settled, EliminateYn;
    if e.Bin? {
      PassShrinks(e);
      PassGood(v, e);
      if Pass(e).n > 0 { EliminateDupsGood(v, EliminateYn(Pass(e).e)); }
    }
  }

  /** expr_eliminate_dups never changes y or n. */
  lemma EliminateDupsDecided(v: Env, e: Expr)
    requires Typed(v) && Value(v, e) != 1
    ensures Value(v, EliminateDups(e)) == Value(v, e)
  {
    hide EliminateDups;
    EliminateDupsGood(v, e);
  }

  /** Nor m, wherever no operand of the other kind is m. */
  lemma EliminateDupsValue(v: Env, e: Expr)
    requires Typed(v) && Settled(v, e)
    ensures Value(v, EliminateDups(e)) == Value(v, e)
  {
    hide EliminateDups;
    EliminateDupsGood(v, e);
  }

  /** An expression that is never m: boolean symbols, comparisons, and what is made
      of them. */
  predicate NeverMod(e: Expr) {
    match e
    case Sym(s) => s == Yes || s == No || s.Type() == Boolean
    case Not(a) => NeverMod(a)
    case Bin(_, a, b) => NeverMod(a) && NeverMod(b)
    case _ => true
  }

  /** Every operand of the other kind is never m, so that an expression of ands
      alone or of ors alone qualifies, and one without tristate symbols. */
  predicate Plain(op: Op, e: Expr) {
    e.Bin? ==> if e.op == op then Plain(op, e.left) && Plain(op, e.right) else NeverMod(e)
  }

  lemma {:induction false} NeverModUnder(v: Env, op: Op, e: Expr)
    requires Typed(v) && NeverMod(e)
    ensures Value(v, e) != 1 && Under(v, op, e)
    decreases e
  {
    match e
    case Sym(s) => assert TypedAt(v, s);
    case Not(a) => NeverModUnder(v, op, a);
    case Bin(o, a, b) =>
      NeverModUnder(v, o, a);
      NeverModUnder(v, o, b);
    case _ =>
  }

  lemma {:induction false} PlainUnder(v: Env, op: Op, e: Expr)
    requires Typed(v) && Plain(op, e)
    ensures Under(v, op, e)
  {
    if e.Bin? {
      if e.op == op {
        PlainUnder(v, op, e.left);
        PlainUnder(v, op, e.right);
      } else {
        NeverModUnder(v, op, e);
      }
    }
  }

  /** On such an expression the value stays the same in every assignment. */
  lemma EliminateDupsExact(v: Env, e: Expr)
    requires Typed(v) && (e.Bin? ==> Plain(e.op, e))
    ensures Value(v, EliminateDups(e)) == Value(v, e)
  {
    hide EliminateDups;
    if e.Bin? { PlainUnder(v, e.op, e); }
    EliminateDupsGood(v, e);
  }
}
