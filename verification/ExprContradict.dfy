/** expr.c, fifth part: operands that contradict the others, and the whole of
    expr_eliminate_dups. */
module ExprContradict {
  import opened Kconfig
  import opened ExprEq
  import opened ExprTransform
  import opened ExprJoin
  import opened ExprDups

  // ----- expr_extract_eq -----

  /** What is left of two expressions, and whether anything was taken out. */
  datatype Parts = Parts(a: Expr, b: Expr, found: bool)

  /** expr_extract_eq: equal operands of the two are replaced by the unit. */
  function Extract(op: Op, a: Expr, b: Expr): (r: Parts)
    ensures Size(r.a) <= Size(a) && Size(r.b) <= Size(b)
    decreases Size(a) + Size(b)
  {
    if IsOp(a, op) then
      var x := Extract(op, a.left, b);
      var y := Extract(op, a.right, x.b);
      Parts(Bin(op, x.a, y.a), y.b, x.found || y.found)
    else if IsOp(b, op) then
      var x := Extract(op, a, b.left);
      var y := Extract(op, x.a, b.right);
      Parts(y.a, Bin(op, x.b, y.b), x.found || y.found)
    else if Eq(a, b) then Parts(Sym(op.Unit()), Sym(op.Unit()), true)
    else Parts(a, b, false)
  }

  /** expr_extract_eq_and and expr_extract_eq_or */
  function ExtractEq(op: Op, a: Expr, b: Expr): Parts {
    var x := Extract(op, a, b);
    if x.found then Parts(EliminateYn(x.a), EliminateYn(x.b), true) else x
  }

  lemma {:induction false} ExtractValue(v: Env, op: Op, a: Expr, b: Expr) returns (c: Tri)
    requires Typed(v)
    ensures var r := Extract(op, a, b);
      Value(v, a) == op.Apply(c, Value(v, r.a)) && Value(v, b) == op.Apply(c, Value(v, r.b))
    decreases Size(a) + Size(b)
  {
    hide Eq, Op.Apply;
    if IsOp(a, op) {
      var x := Extract(op, a.left, b);
      var y := Extract(op, a.right, x.b);
      var c1 := ExtractValue(v, op, a.left, b);
      var c2 := ExtractValue(v, op, a.right, x.b);
      c := op.Apply(c1, c2);
      OpShuffle(op, c1, c2, Value(v, x.a), Value(v, y.a));
      OpShuffle(op, c1, c2, Value(v, y.b), 0);
    } else if IsOp(b, op) {
      var x := Extract(op, a, b.left);
      var y := Extract(op, x.a, b.right);
      var c1 := ExtractValue(v, op, a, b.left);
      var c2 := ExtractValue(v, op, x.a, b.right);
      c := op.Apply(c1, c2);
      OpShuffle(op, c1, c2, Value(v, x.b), Value(v, y.b));
      OpShuffle(op, c1, c2, Value(v, y.a), 0);
    } else if Eq(a, b) {
      EqSound(v, a, b);
      c := Value(v, a);
      UnitValue(v, op, c);
    } else {
      c := v.tri(op.Unit());
      UnitValue(v, op, Value(v, a));
      UnitValue(v, op, Value(v, b));
    }
  }

  /** If all of a was found in b, then b decides at least as much as a: for and,
      it is no greater, for or, no smaller. */
  lemma ExtractAll(v: Env, op: Op, a: Expr, b: Expr)
    requires Typed(v) && ExtractEq(op, a, b).a == Sym(op.Unit())
    ensures op.Apply(Value(v, a), Value(v, b)) == Value(v, b)
  {
    var x := Extract(op, a, b);
    var c := ExtractValue(v, op, a, b);
    YnValue(v, x.a);
    UnitValue(v, op, c);
    OpLaws(op, c, c, Value(v, x.b));
  }

  // ----- expr_eliminate_dups2 -----

  /** An operand that is itself an and or an or is simplified first. */
  function Simplify(op: Op, a: Expr): (r: Changed)
    requires !IsOp(a, op)
    ensures !IsOp(r.e, op) && Size(r.e) <= Size(a) && (r.e.Bin? <==> a.Bin?)
    decreases Size(a), 3
  {
    if a.Bin? then Dups2(a.op, a) else Changed(a, 0)
  }

  /** The operands of the negation of a are all found in b. */
  predicate Refuted(op: Op, a: Expr, b: Expr) {
    a.Bin? && ExtractEq(op, Transform(Not(a)), b).a == Sym(op.Unit())
  }

  /** Operand i against the operands lo and later that make up the tree e. */
  function Against(op: Op, e: Expr, lo: nat, ws: List, i: nat): (r: List)
    requires Operands(op, ws.xs) && i < |ws.xs| && lo + |Leaves(op, e)| <= |ws.xs|
    ensures |r.xs| == |ws.xs| && Operands(op, r.xs) && r.xs == ws.xs[i := r.xs[i]] && Size(r.xs[i]) <= Size(ws.xs[i])
    decreases Size(ws.xs[i]), 4
  {
    var d := Simplify(op, ws.xs[i]);
    var zs := ws.xs[i := d.e];
    if Refuted(op, d.e, Build(op, e, zs[lo..lo + |Leaves(op, e)|])) then
      List(zs[i := Sym(op.Zero())], ws.n + d.n + 1)
    else List(zs, ws.n + d.n)
  }

  /** Operand i against each operand of the tree e but itself, and, as the second
      pointer comes back up, against groups of them. */
  function RefuteBy(op: Op, e: Expr, lo: nat, xs: seq<Expr>, i: nat): (r: List)
    requires Operands(op, xs) && i < |xs| && lo + |Leaves(op, e)| <= |xs|
    ensures |r.xs| == |xs| && Operands(op, r.xs) && r.xs == xs[i := r.xs[i]] && Size(r.xs[i]) <= Size(xs[i])
    decreases Size(xs[i]), 5, e
  {
    if IsOp(e, op) then
      var x := RefuteBy(op, e.left, lo, xs, i);
      var y := RefuteBy(op, e.right, lo + |Leaves(op, e.left)|, x.xs, i);
      Against(op, e, lo, List(y.xs, x.n + y.n), i)
    else if i == lo then List(xs, 0)
    else Against(op, e, lo, List(xs, 0), i)
  }

  /** Operands i and later of e, each against the whole tree. */
  function RefuteRows(op: Op, e: Expr, xs: seq<Expr>, i: nat): (r: List)
    requires Operands(op, xs) && i <= |xs| == |Leaves(op, e)|
    ensures |r.xs| == |xs| && Operands(op, r.xs) && Total(r.xs) <= Total(xs)
    decreases Total(xs), 6, |xs| - i
  {
    if i == |xs| then List(xs, 0)
    else
      TotalUpdate(xs, i, xs[i]);
      var p := RefuteBy(op, e, 0, xs, i);
      TotalUpdate(xs, i, p.xs[i]);
      var r := RefuteRows(op, e, p.xs, i + 1);
      List(r.xs, p.n + r.n)
  }

  /** expr_eliminate_dups2 on a tree against itself. */
  function Dups2(op: Op, e: Expr): (r: Changed)
    requires IsOp(e, op)
    ensures IsOp(r.e, op) && Size(r.e) <= Size(e)
    decreases Size(e), 0
  {
    LeavesSize(op, e);
    var r := RefuteRows(op, e, Leaves(op, e), 0);
    BuildSame(op, e);
    BuildSize(op, e, Leaves(op, e));
    BuildSize(op, e, r.xs);
    Changed(Build(op, e, r.xs), r.n)
  }

  // ----- changes leave constants for expr_eliminate_yn -----

  lemma DirtyOne(xs: seq<Expr>, i: nat, d: Expr)
    requires i < |xs| && (DirtyAt(xs[i]) ==> DirtyAt(d))
    ensures Dirty(xs) || DirtyAt(d) ==> Dirty(xs[i := d])
  {
    hide DirtyAt;
    var ys := xs[i := d];
    assert ys[i] == d;
    if Dirty(xs) {
      var k :| 0 <= k < |xs| && DirtyAt(xs[k]);
      if k != i { assert ys[k] == xs[k]; }
    }
  }

  lemma {:induction false} SimplifyDirty(op: Op, a: Expr)
    requires !IsOp(a, op)
    ensures var d := Simplify(op, a); (d.n > 0 || DirtyAt(a) ==> DirtyAt(d.e)) && (d.n == 0 ==> d.e == a)
    decreases Size(a), 3
  {
    if a.Bin? { Dups2Dirty(a.op, a); }
  }

  lemma {:induction false} AgainstDirty(op: Op, e: Expr, lo: nat, ws: List, i: nat)
    requires Operands(op, ws.xs) && i < |ws.xs| && lo + |Leaves(op, e)| <= |ws.xs|
    ensures var r := Against(op, e, lo, ws, i);
      (r.n > ws.n || Dirty(ws.xs) ==> Dirty(r.xs)) && (r.n == ws.n ==> r.xs == ws.xs) && r.n >= ws.n
    decreases Size(ws.xs[i]), 4
  {
    hide Dirty, Clean, Refuted, Build, Leaves, Simplify;
    var d := Simplify(op, ws.xs[i]);
    SimplifyDirty(op, ws.xs[i]);
    DirtyOne(ws.xs, i, d.e);
    DirtyOne(ws.xs[i := d.e], i, Sym(op.Zero()));
  }

  lemma {:induction false} RefuteByDirty(op: Op, e: Expr, lo: nat, xs: seq<Expr>, i: nat)
    requires Operands(op, xs) && i < |xs| && lo + |Leaves(op, e)| <= |xs|
    ensures var r := RefuteBy(op, e, lo, xs, i); (r.n > 0 || Dirty(xs) ==> Dirty(r.xs)) && (r.n == 0 ==> r.xs == xs)
    decreases Size(xs[i]), 5, e
  {
    hide Dirty, Against;
    if IsOp(e, op) {
      var x := RefuteBy(op, e.left, lo, xs, i);
      RefuteByDirty(op, e.left, lo, xs, i);
      var y := RefuteBy(op, e.right, lo + |Leaves(op, e.left)|, x.xs, i);
      RefuteByDirty(op, e.right, lo + |Leaves(op, e.left)|, x.xs, i);
      AgainstDirty(op, e, lo, List(y.xs, x.n + y.n), i);
    } else if i != lo {
      AgainstDirty(op, e, lo, List(xs, 0), i);
    }
  }

  lemma {:induction false} RefuteRowsDirty(op: Op, e: Expr, xs: seq<Expr>, i: nat)
    requires Operands(op, xs) && i <= |xs| == |Leaves(op, e)|
    ensures var r := RefuteRows(op, e, xs, i); (r.n > 0 || Dirty(xs) ==> Dirty(r.xs)) && (r.n == 0 ==> r.xs == xs)
    decreases Total(xs), 6, |xs| - i
  {
    hide RefuteBy, Dirty;
    if i < |xs| {
      TotalUpdate(xs, i, xs[i]);
      var p := RefuteBy(op, e, 0, xs, i);
      TotalUpdate(xs, i, p.xs[i]);
      RefuteByDirty(op, e, 0, xs, i);
      RefuteRowsDirty(op, e, p.xs, i + 1);
    }
  }

  lemma {:induction false} Dups2Dirty(op: Op, e: Expr)
    requires IsOp(e, op)
    ensures var r := Dups2(op, e);
      (r.n > 0 || !Clean(e) ==> !Clean(r.e)) && (r.n == 0 ==> r.e == e)
    decreases Size(e), 0
  {
    hide RefuteRows, Leaves, Build, Dirty;
    var xs := Leaves(op, e);
    LeavesSize(op, e);
    RefuteRowsDirty(op, e, xs, 0);
    BuildSame(op, e);
    BuildDirty(op, e, xs);
    BuildDirty(op, e, RefuteRows(op, e, xs, 0).xs);
  }

  // ----- expr_eliminate_dups -----

  /** One round: repeated operands, then contradicting ones. */
  function Pass(e: Expr): (r: Changed)
    requires e.Bin?
    ensures r.e.Bin? && Size(r.e) <= Size(e)
  {
    var x := Dups1(e.op, e);
    var y := Dups2(e.op, x.e);
    Changed(y.e, x.n + y.n)
  }

  /** A round that changes something makes the expression smaller, once the
      constants it left are gone; one that does not, does nothing. */
  lemma PassShrinks(e: Expr)
    requires e.Bin?
    ensures Pass(e).n > 0 ==> Size(EliminateYn(Pass(e).e)) < Size(e)
    ensures Pass(e).n == 0 ==> Pass(e).e == e
  {
    hide Dups1, Dups2, Clean, EliminateYn;
    var x := Dups1(e.op, e);
    Dups1Dirty(e.op, e);
    Dups2Dirty(e.op, x.e);
    YnClean(Pass(e).e);
  }

  /** The result of expr_eliminate_dups. */
  function EliminateDups(e: Expr): (r: Expr)
    ensures Size(r) <= Size(e)
    decreases Size(e)
  {
    if !e.Bin? then e
    else
      var p := Pass(e);
      PassShrinks(e);
      if p.n == 0 then p.e else EliminateDups(EliminateYn(p.e))
  }

  /** expr_eliminate_dups: the loop, which ends because every round but the last
      makes the expression smaller. */
  method EliminateDupsLoop(e0: Expr) returns (e: Expr)
    ensures e == EliminateDups(e0)
  {
    hide Pass;
    e := e0;
    var more := true;
    while more
      invariant EliminateDups(e) == EliminateDups(e0)
      invariant !more ==> EliminateDups(e0) == e
      decreases more, Size(e)
    {
      var transCount := 0;
      if e.Bin? {
        PassShrinks(e);
        var p := Pass(e);
        e, transCount := p.e, p.n;
      }
      if transCount == 0 {
        more := false;
      } else {
        e := EliminateYn(e);
      }
    }
  }

  /** The result is final: another run changes nothing. */
  lemma {:induction false} EliminateDupsOnce(e: Expr)
    ensures EliminateDups(EliminateDups(e)) == EliminateDups(e)
    decreases Size(e)
  {
    hide Pass;
    if e.Bin? {
      PassShrinks(e);
      if Pass(e).n > 0 { EliminateDupsOnce(EliminateYn(Pass(e).e)); }
    }
  }
}
