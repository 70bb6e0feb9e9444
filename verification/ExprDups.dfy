/** expr.c, fourth part: removing repeated and contradictory operands.  The
    source walks two pointers over one tree whose operands it replaces; here the
    operands of a tree of one operator are a list, and every ordered pair of
    distinct operands is visited in the same order. */
module ExprDups {
  import opened Kconfig
  import opened ExprEq
  import opened ExprTransform
  import opened ExprJoin

  // ----- a tree of one operator and the list of its operands -----

  /** The operands of a tree of op, from left to right. */
  function Leaves(op: Op, e: Expr): (xs: seq<Expr>)
    ensures |xs| > 0 && forall k :: 0 <= k < |xs| ==> !IsOp(xs[k], op)
  {
    if IsOp(e, op) then Leaves(op, e.left) + Leaves(op, e.right) else [e]
  }

  /** The same tree with other operands. */
  function Build(op: Op, e: Expr, xs: seq<Expr>): Expr
    requires |xs| == |Leaves(op, e)|
  {
    if IsOp(e, op) then
      var n := |Leaves(op, e.left)|;
      Bin(op, Build(op, e.left, xs[..n]), Build(op, e.right, xs[n..]))
    else xs[0]
  }

  function Total(xs: seq<Expr>): nat {
    if |xs| == 0 then 0 else Total(xs[..|xs| - 1]) + Size(xs[|xs| - 1])
  }

  function Fold(v: Env, op: Op, xs: seq<Expr>): Tri {
    if |xs| == 0 then (if op == And then 2 else 0) else op.Apply(Fold(v, op, xs[..|xs| - 1]), Value(v, xs[|xs| - 1]))
  }

  lemma {:induction false} TotalConcat(xs: seq<Expr>, ys: seq<Expr>)
    ensures Total(xs + ys) == Total(xs) + Total(ys)
  {
    if |ys| == 0 {
      assert xs + ys == xs;
    } else {
      TotalConcat(xs, ys[..|ys| - 1]);
      assert (xs + ys)[..|xs + ys| - 1] == xs + ys[..|ys| - 1];
    }
  }

  lemma {:induction false} FoldConcat(v: Env, op: Op, xs: seq<Expr>, ys: seq<Expr>)
    ensures Fold(v, op, xs + ys) == op.Apply(Fold(v, op, xs), Fold(v, op, ys))
  {
    if |ys| == 0 {
      assert xs + ys == xs;
    } else {
      FoldConcat(v, op, xs, ys[..|ys| - 1]);
      assert (xs + ys)[..|xs + ys| - 1] == xs + ys[..|ys| - 1];
    }
  }

  /** Replacing one operand. */
  lemma {:induction false} TotalUpdate(xs: seq<Expr>, k: nat, x: Expr)
    requires k < |xs|
    ensures Total(xs[k := x]) == Total(xs) - Size(xs[k]) + Size(x) && Size(xs[k]) <= Total(xs)
  {
    var n := |xs| - 1;
    if k == n {
      assert xs[k := x][..n] == xs[..n];
    } else {
      TotalUpdate(xs[..n], k, x);
      assert xs[k := x][..n] == xs[..n][k := x];
    }
  }

  /** All operands but one. */
  function Others(xs: seq<Expr>, k: nat): seq<Expr>
    requires k < |xs|
  {
    xs[..k] + xs[k + 1..]
  }

  lemma FoldAt(v: Env, op: Op, xs: seq<Expr>, k: nat)
    requires k < |xs|
    ensures Fold(v, op, xs) == op.Apply(Value(v, xs[k]), Fold(v, op, Others(xs, k)))
  {
    assert xs == xs[..k] + [xs[k]] + xs[k + 1..];
    FoldConcat(v, op, xs[..k] + [xs[k]], xs[k + 1..]);
    FoldConcat(v, op, xs[..k], [xs[k]]);
    FoldConcat(v, op, xs[..k], xs[k + 1..]);
    assert Fold(v, op, [xs[k]]) == Value(v, xs[k]);
  }

  /** The other operands do not change when two are replaced. */
  lemma OthersTwo(xs: seq<Expr>, i: nat, j: nat, a: Expr, b: Expr) returns (p: nat)
    requires i < |xs| && j < |xs| && i != j
    ensures var ys := xs[i := a][j := b];
      var xo, yo := Others(xs, i), Others(ys, i);
      p < |xo| == |yo| && ys[i] == a && xo[p] == xs[j] && yo[p] == b && Others(xo, p) == Others(yo, p)
  {
    var ys := xs[i := a][j := b];
    var xo, yo := Others(xs, i), Others(ys, i);
    p := if j < i then j else j - 1;
    assert xo[..p] == yo[..p];
    assert xo[p + 1..] == yo[p + 1..];
  }

  /** Two operands replaced by two of the same joint value. */
  lemma FoldTwo(v: Env, op: Op, xs: seq<Expr>, i: nat, j: nat, a: Expr, b: Expr)
    requires i < |xs| && j < |xs| && i != j
    requires op.Apply(Value(v, a), Value(v, b)) == op.Apply(Value(v, xs[i]), Value(v, xs[j]))
    ensures Fold(v, op, xs[i := a][j := b]) == Fold(v, op, xs)
  {
    hide Fold, Others, Op.Apply;
    var ys := xs[i := a][j := b];
    var p := OthersTwo(xs, i, j, a, b);
    FoldAt(v, op, xs, i);
    FoldAt(v, op, ys, i);
    FoldAt(v, op, Others(xs, i), p);
    FoldAt(v, op, Others(ys, i), p);
    var rest := Fold(v, op, Others(Others(xs, i), p));
    OpLaws(op, Value(v, xs[i]), Value(v, xs[j]), rest);
    OpLaws(op, Value(v, a), Value(v, b), rest);
  }

  lemma {:induction false} BuildValue(v: Env, op: Op, e: Expr, xs: seq<Expr>)
    requires Typed(v) && |xs| == |Leaves(op, e)|
    ensures Value(v, Build(op, e, xs)) == Fold(v, op, xs)
  {
    if IsOp(e, op) {
      var n := |Leaves(op, e.left)|;
      BuildValue(v, op, e.left, xs[..n]);
      BuildValue(v, op, e.right, xs[n..]);
      FoldConcat(v, op, xs[..n], xs[n..]);
      assert xs[..n] + xs[n..] == xs;
    } else {
      assert xs == [xs[0]];
    }
  }

  lemma {:induction false} BuildSize(op: Op, e: Expr, xs: seq<Expr>)
    requires |xs| == |Leaves(op, e)|
    ensures Size(Build(op, e, xs)) == Total(xs) + |xs| - 1
  {
    if IsOp(e, op) {
      var n := |Leaves(op, e.left)|;
      BuildSize(op, e.left, xs[..n]);
      BuildSize(op, e.right, xs[n..]);
      TotalConcat(xs[..n], xs[n..]);
      assert xs[..n] + xs[n..] == xs;
    } else {
      assert xs == [xs[0]];
      assert Total([xs[0]]) == Total([]) + Size(xs[0]);
    }
  }

  /** The tree of its own operands. */
  lemma {:induction false} BuildSame(op: Op, e: Expr)
    ensures Build(op, e, Leaves(op, e)) == e
  {
    if IsOp(e, op) {
      var l, r := Leaves(op, e.left), Leaves(op, e.right);
      assert (l + r)[..|l|] == l && (l + r)[|l|..] == r;
      BuildSame(op, e.left);
      BuildSame(op, e.right);
    }
  }

  lemma LeavesSize(op: Op, e: Expr)
    requires IsOp(e, op)
    ensures Total(Leaves(op, e)) < Size(e)
  {
    BuildSame(op, e);
    BuildSize(op, e, Leaves(op, e));
    assert |Leaves(op, e.left)| > 0 && |Leaves(op, e.right)| > 0;
  }

  // ----- expr_eliminate_dups1 -----

  /** An expression, or operands, and how many changes were made (trans_count). */
  datatype Changed = Changed(e: Expr, n: nat)
  datatype Pair = Pair(a: Expr, b: Expr, n: nat)
  datatype List = List(xs: seq<Expr>, n: nat)

  ghost predicate Operands(op: Op, xs: seq<Expr>) {
    forall k :: 0 <= k < |xs| ==> !IsOp(xs[k], op)
  }

  lemma PutTwo(xs: seq<Expr>, i: nat, j: nat, a: Expr, b: Expr)
    requires i < |xs| && j < |xs| && i != j
    ensures Total(xs[i := a][j := b]) == Total(xs) - Size(xs[i]) - Size(xs[j]) + Size(a) + Size(b)
    ensures Size(xs[i]) + Size(xs[j]) <= Total(xs)
  {
    hide Total, Size;
    TwoSizes(xs, i, j);
    TotalUpdate(xs, i, a);
    TotalUpdate(xs[i := a], j, b);
  }

  lemma {:induction false} TwoSizes(xs: seq<Expr>, i: nat, j: nat)
    requires i < |xs| && j < |xs| && i != j
    ensures Size(xs[i]) + Size(xs[j]) <= Total(xs)
  {
    var n := |xs| - 1;
    if i == n {
      TotalUpdate(xs[..n], j, xs[j]);
    } else if j == n {
      TotalUpdate(xs[..n], i, xs[i]);
    } else {
      TwoSizes(xs[..n], i, j);
    }
  }

  /** Two operands: the first is simplified on its own if it is an and or an or,
      then they are joined if that is possible. */
  function JoinPair(op: Op, a: Expr, b: Expr): (r: Pair)
    requires !IsOp(a, op) && !IsOp(b, op)
    ensures !IsOp(r.a, op) && !IsOp(r.b, op) && Size(r.a) + Size(r.b) <= Size(a) + Size(b)
    decreases Size(a) + Size(b), 0
  {
    var d := if a.Bin? then Dups1(a.op, a) else Changed(a, 0);
    match Join(op, d.e, b)
    case Some(c) =>
      JoinSize(op, d.e, b);
      Pair(Sym(op.Unit()), c, d.n + 1)
    case None => Pair(d.e, b, d.n)
  }

  /** Operand i against operands j and later. */
  function JoinRow(op: Op, xs: seq<Expr>, i: nat, j: nat): (r: List)
    requires i < |xs| && j <= |xs| && Operands(op, xs)
    ensures |r.xs| == |xs| && Operands(op, r.xs) && Total(r.xs) <= Total(xs)
    decreases Total(xs), 1, |xs| - j
  {
    if j == |xs| then List(xs, 0)
    else if i == j then JoinRow(op, xs, i, j + 1)
    else
      PutTwo(xs, i, j, xs[i], xs[j]);
      var p := JoinPair(op, xs[i], xs[j]);
      PutTwo(xs, i, j, p.a, p.b);
      var r := JoinRow(op, xs[i := p.a][j := p.b], i, j + 1);
      List(r.xs, p.n + r.n)
  }

  /** Operands i and later, each against all others. */
  function JoinRows(op: Op, xs: seq<Expr>, i: nat): (r: List)
    requires i <= |xs| && Operands(op, xs)
    ensures |r.xs| == |xs| && Operands(op, r.xs) && Total(r.xs) <= Total(xs)
    decreases Total(xs), 2, |xs| - i
  {
    if i == |xs| then List(xs, 0)
    else
      var p := JoinRow(op, xs, i, 0);
      var r := JoinRows(op, p.xs, i + 1);
      List(r.xs, p.n + r.n)
  }

  /** expr_eliminate_dups1 on a tree against itself. */
  function Dups1(op: Op, e: Expr): (r: Changed)
    requires IsOp(e, op)
    ensures IsOp(r.e, op) && Size(r.e) <= Size(e)
    decreases Size(e), 0
  {
    LeavesSize(op, e);
    var r := JoinRows(op, Leaves(op, e), 0);
    BuildSame(op, e);
    BuildSize(op, e, Leaves(op, e));
    BuildSize(op, e, r.xs);
    Changed(Build(op, e, r.xs), r.n)
  }

  lemma {:induction false} JoinPairValue(v: Env, op: Op, a: Expr, b: Expr)
    requires Typed(v) && !IsOp(a, op) && !IsOp(b, op)
    ensures var r := JoinPair(op, a, b); op.Apply(Value(v, r.a), Value(v, r.b)) == op.Apply(Value(v, a), Value(v, b))
    decreases Size(a) + Size(b), 0
  {
    hide Op.Apply, Join;
    var d := if a.Bin? then Dups1(a.op, a) else Changed(a, 0);
    if a.Bin? { Dups1Value(v, a.op, a); }
    if Join(op, d.e, b).Some? {
      JoinValue(v, op, d.e, b);
      UnitValue(v, op, Value(v, Join(op, d.e, b).value));
    }
  }

  lemma {:induction false} JoinRowValue(v: Env, op: Op, xs: seq<Expr>, i: nat, j: nat)
    requires Typed(v) && i < |xs| && j <= |xs| && Operands(op, xs)
    ensures Fold(v, op, JoinRow(op, xs, i, j).xs) == Fold(v, op, xs)
    decreases Total(xs), 1, |xs| - j
  {
    hide Op.Apply, JoinPair, Fold;
    if j < |xs| {
      if i == j {
        JoinRowValue(v, op, xs, i, j + 1);
      } else {
        var p := JoinPair(op, xs[i], xs[j]);
        PutTwo(xs, i, j, xs[i], xs[j]);
        PutTwo(xs, i, j, p.a, p.b);
        JoinPairValue(v, op, xs[i], xs[j]);
        FoldTwo(v, op, xs, i, j, p.a, p.b);
        JoinRowValue(v, op, xs[i := p.a][j := p.b], i, j + 1);
      }
    }
  }

  lemma {:induction false} JoinRowsValue(v: Env, op: Op, xs: seq<Expr>, i: nat)
    requires Typed(v) && i <= |xs| && Operands(op, xs)
    ensures Fold(v, op, JoinRows(op, xs, i).xs) == Fold(v, op, xs)
    decreases Total(xs), 2, |xs| - i
  {
    hide JoinRow, Fold;
    if i < |xs| {
      JoinRowValue(v, op, xs, i, 0);
      JoinRowsValue(v, op, JoinRow(op, xs, i, 0).xs, i + 1);
    }
  }

  /** Joining operands keeps the exact value in every well-typed assignment. */
  lemma {:induction false} Dups1Value(v: Env, op: Op, e: Expr)
    requires Typed(v) && IsOp(e, op)
    ensures Value(v, Dups1(op, e).e) == Value(v, e)
    decreases Size(e), 0
  {
    hide Fold, JoinRows, Leaves, Build;
    var xs := Leaves(op, e);
    LeavesSize(op, e);
    JoinRowsValue(v, op, xs, 0);
    BuildValue(v, op, e, xs);
    BuildSame(op, e);
    BuildValue(v, op, e, JoinRows(op, xs, 0).xs);
  }

  // ----- changes leave constants for expr_eliminate_yn -----

  /** Some operand is y or n, or has such an operand inside. */
  ghost predicate Dirty(xs: seq<Expr>) {
    exists k :: 0 <= k < |xs| && DirtyAt(xs[k])
  }

  predicate DirtyAt(e: Expr) { IsYn(e) || !Clean(e) }

  lemma {:induction false} BuildDirty(op: Op, e: Expr, xs: seq<Expr>)
    requires |xs| == |Leaves(op, e)| && Operands(op, xs)
    ensures Dirty(xs) <==> DirtyAt(Build(op, e, xs))
  {
    if IsOp(e, op) {
      var n := |Leaves(op, e.left)|;
      var l, r := xs[..n], xs[n..];
      BuildDirty(op, e.left, l);
      BuildDirty(op, e.right, r);
      DirtySplit(xs, n);
    } else {
      assert xs == [xs[0]];
    }
  }

  lemma DirtySplit(xs: seq<Expr>, n: nat)
    requires n <= |xs|
    ensures Dirty(xs) <==> Dirty(xs[..n]) || Dirty(xs[n..])
  {
    var l, r := xs[..n], xs[n..];
    if Dirty(xs) {
      var k :| 0 <= k < |xs| && DirtyAt(xs[k]);
      if k < n { assert DirtyAt(l[k]); } else { assert DirtyAt(r[k - n]); }
    }
    if Dirty(l) {
      var k :| 0 <= k < |l| && DirtyAt(l[k]);
      assert DirtyAt(xs[k]);
    }
    if Dirty(r) {
      var k :| 0 <= k < |r| && DirtyAt(r[k]);
      assert DirtyAt(xs[n + k]);
    }
  }

  lemma {:induction false} JoinPairDirty(op: Op, a: Expr, b: Expr)
    requires !IsOp(a, op) && !IsOp(b, op)
    ensures var r := JoinPair(op, a, b);
      && (r.n > 0 || DirtyAt(a) || DirtyAt(b) ==> DirtyAt(r.a) || DirtyAt(r.b))
      && (r.n == 0 ==> r.a == a && r.b == b)
    decreases Size(a) + Size(b), 0
  {
    hide Join, Dups1;
    if a.Bin? { Dups1Dirty(a.op, a); }
  }

  lemma {:induction false} JoinRowDirty(op: Op, xs: seq<Expr>, i: nat, j: nat)
    requires i < |xs| && j <= |xs| && Operands(op, xs)
    ensures var r := JoinRow(op, xs, i, j);
      (r.n > 0 || Dirty(xs) ==> Dirty(r.xs)) && (r.n == 0 ==> r.xs == xs)
    decreases Total(xs), 1, |xs| - j
  {
    hide JoinPair, DirtyAt, Dirty, Size;
    if j < |xs| {
      if i == j {
        JoinRowDirty(op, xs, i, j + 1);
      } else {
        var p := JoinPair(op, xs[i], xs[j]);
        PutTwo(xs, i, j, xs[i], xs[j]);
        PutTwo(xs, i, j, p.a, p.b);
        JoinPairDirty(op, xs[i], xs[j]);
        DirtyTwo(xs, i, j, p.a, p.b);
        JoinRowDirty(op, xs[i := p.a][j := p.b], i, j + 1);
        assert p.n == 0 ==> xs[i := p.a][j := p.b] == xs;
      }
    }
  }

  lemma DirtyTwo(xs: seq<Expr>, i: nat, j: nat, a: Expr, b: Expr)
    requires i < |xs| && j < |xs| && i != j && (DirtyAt(xs[i]) || DirtyAt(xs[j]) ==> DirtyAt(a) || DirtyAt(b))
    ensures Dirty(xs) || DirtyAt(a) || DirtyAt(b) ==> Dirty(xs[i := a][j := b])
  {
    hide DirtyAt;
    var ys := xs[i := a][j := b];
    assert ys[i] == a && ys[j] == b;
    if Dirty(xs) {
      var k :| 0 <= k < |xs| && DirtyAt(xs[k]);
      if k != i && k != j { assert ys[k] == xs[k]; }
    }
  }

  lemma {:induction false} JoinRowsDirty(op: Op, xs: seq<Expr>, i: nat)
    requires i <= |xs| && Operands(op, xs)
    ensures var r := JoinRows(op, xs, i);
      (r.n > 0 || Dirty(xs) ==> Dirty(r.xs)) && (r.n == 0 ==> r.xs == xs)
    decreases Total(xs), 2, |xs| - i
  {
    hide JoinRow, Dirty;
    if i < |xs| {
      JoinRowDirty(op, xs, i, 0);
      JoinRowsDirty(op, JoinRow(op, xs, i, 0).xs, i + 1);
    }
  }

  lemma {:induction false} Dups1Dirty(op: Op, e: Expr)
    requires IsOp(e, op)
    ensures var r := Dups1(op, e);
      (r.n > 0 || !Clean(e) ==> !Clean(r.e)) && (r.n == 0 ==> r.e == e)
    decreases Size(e), 0
  {
    hide JoinRows, Leaves, Build, Dirty;
    var xs := Leaves(op, e);
    LeavesSize(op, e);
    JoinRowsDirty(op, xs, 0);
    BuildSame(op, e);
    BuildDirty(op, e, xs);
    BuildDirty(op, e, JoinRows(op, xs, 0).xs);
  }
}
