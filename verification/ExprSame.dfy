/** expr.c: what is found and removed. Every expression equals itself, however its operands
    are matched, and after expr_eliminate_dups no two operands are left that are the same or
    that could be joined. */
module ExprSame {
  import opened Kconfig
  import opened ExprEq
  import opened ExprTransform
  import opened ExprJoin
  import opened ExprDups
  import opened ExprContradict

  // ----- expr_eq -----

  /** Matching x with y removes both. */
  predicate Takes(x: Expr, y: Expr) { Eq(x, y) && !(x == y && IsYn(x)) }

  lemma MatchOne(op: Op, x: Expr, y: Expr)
    requires !IsOp(x, op) && !IsOp(y, op)
    ensures EliminateOp(op, x, y) == if Takes(x, y) then Two(Sym(op.Unit()), Sym(op.Unit())) else Two(x, y)
  {
    hide Eq;
  }

  /** What has been removed takes nothing more. */
  lemma UnitTakes(op: Op, y: Expr)
    ensures !Takes(Sym(op.Unit()), y)
  {
  }

  /** An operand that takes none of the operands of a tree leaves all as it is. */
  lemma {:induction false} ScanNone(op: Op, x: Expr, e: Expr, ys: seq<Expr>)
    requires !IsOp(x, op) && |ys| == |Leaves(op, e)| && Operands(op, ys)
    requires forall k :: 0 <= k < |ys| ==> !Takes(x, ys[k])
    ensures EliminateOp(op, x, Build(op, e, ys)) == Two(x, Build(op, e, ys))
    decreases e
  {
    hide Takes, Eq;
    if IsOp(e, op) {
      var n := |Leaves(op, e.left)|;
      assert forall k :: 0 <= k < n ==> ys[..n][k] == ys[k];
      assert forall k :: 0 <= k < |ys| - n ==> ys[n..][k] == ys[n + k];
      ScanNone(op, x, e.left, ys[..n]);
      ScanNone(op, x, e.right, ys[n..]);
    } else {
      MatchOne(op, x, ys[0]);
    }
  }

  /** One that takes the k-th and none before it is removed with that. */
  lemma {:induction false} ScanTakes(op: Op, x: Expr, e: Expr, ys: seq<Expr>, k: nat)
    requires !IsOp(x, op) && |ys| == |Leaves(op, e)| && Operands(op, ys) && k < |ys|
    requires Takes(x, ys[k]) && forall j :: 0 <= j < k ==> !Takes(x, ys[j])
    ensures EliminateOp(op, x, Build(op, e, ys)) == Two(Sym(op.Unit()), Build(op, e, ys[k := Sym(op.Unit())]))
    decreases e
  {
    hide Takes, Eq;
    var u := Sym(op.Unit());
    if IsOp(e, op) {
      var n := |Leaves(op, e.left)|;
      var l, r := ys[..n], ys[n..];
      if k < n {
        ScanTakes(op, x, e.left, l, k);
        assert ys[k := u][..n] == l[k := u] && ys[k := u][n..] == r;
        forall j | 0 <= j < |r|
          ensures !Takes(u, r[j])
        {
          UnitTakes(op, r[j]);
        }
        ScanNone(op, u, e.right, r);
      } else {
        assert forall j :: 0 <= j < n ==> l[j] == ys[j];
        assert forall j :: 0 <= j < k - n ==> r[j] == ys[n + j];
        ScanNone(op, x, e.left, l);
        ScanTakes(op, x, e.right, r, k - n);
        assert ys[k := u][..n] == l && ys[k := u][n..] == r[k - n := u];
      }
    } else {
      MatchOne(op, x, ys[0]);
      assert ys[0 := u] == [u] == [u] + ys[1..];
    }
  }

  /** What is left of an operand that is matched with itself. */
  function Gone(op: Op, x: Expr): Expr { if IsYn(x) then x else Sym(op.Unit()) }

  /** The first k operands are gone. */
  function GoneTo(op: Op, xs: seq<Expr>, k: nat): (r: seq<Expr>)
    requires k <= |xs|
    ensures |r| == |xs|
  {
    seq(|xs|, i requires 0 <= i < |xs| => if i < k then Gone(op, xs[i]) else xs[i])
  }

  lemma GoneOperands(op: Op, xs: seq<Expr>, k: nat)
    requires k <= |xs| && Operands(op, xs)
    ensures Operands(op, GoneTo(op, xs, k))
  {
  }

  lemma YnTakes(x: Expr, y: Expr)
    ensures IsYn(x) || IsYn(y) ==> !Takes(x, y)
  {
  }

  lemma SweepStep(op: Op, e: Expr, b0: Expr, x: Two, y: Two)
    requires IsOp(e, op) && EliminateOp(op, e.left, b0) == x && EliminateOp(op, e.right, x.b) == y
    ensures EliminateOp(op, e, b0) == Two(Bin(op, x.a, y.a), y.b)
  {
    hide Eq;
  }

  lemma BuildBin(op: Op, e: Expr, xs: seq<Expr>, a: seq<Expr>, b: seq<Expr>)
    requires IsOp(e, op) && xs == a + b && |a| == |Leaves(op, e.left)| && |b| == |Leaves(op, e.right)|
    ensures Build(op, e, xs) == Bin(op, Build(op, e.left, a), Build(op, e.right, b))
  {
    assert xs[..|a|] == a && xs[|a|..] == b;
  }

  lemma GoneBoth(op: Op, a: seq<Expr>, b: seq<Expr>)
    ensures GoneTo(op, a + b, |a| + |b|) == GoneTo(op, a, |a|) + GoneTo(op, b, |b|)
  {
  }

  lemma Slices(xs: seq<Expr>, lo: nat, a: seq<Expr>, b: seq<Expr>)
    requires lo + |a| + |b| <= |xs| && xs[lo..lo + |a| + |b|] == a + b
    ensures xs[lo..lo + |a|] == a && xs[lo + |a|..lo + |a| + |b|] == b
  {
    var s := xs[lo..lo + |a| + |b|];
    assert s[..|a|] == a && s[|a|..] == b;
    assert xs[lo..lo + |a|] == s[..|a|] && xs[lo + |a|..lo + |a| + |b|] == s[|a|..];
  }

  /** The operands lo and later of a tree that make up e, against the whole of the tree. */
  lemma {:induction false} Sweep(op: Op, e: Expr, lo: nat, whole: Expr, xs: seq<Expr>)
    requires xs == Leaves(op, whole) && lo + |Leaves(op, e)| <= |xs| && Leaves(op, e) == xs[lo..lo + |Leaves(op, e)|]
    requires forall k :: 0 <= k < |xs| ==> Eq(xs[k], xs[k])
    ensures var n := |Leaves(op, e)|;
      EliminateOp(op, e, Build(op, whole, GoneTo(op, xs, lo)))
      == Two(Build(op, e, GoneTo(op, Leaves(op, e), n)), Build(op, whole, GoneTo(op, xs, lo + n)))
    decreases e
  {
    hide Eq, Takes, EliminateOp, GoneTo, Build;
    if IsOp(e, op) {
      var a, b := Leaves(op, e.left), Leaves(op, e.right);
      var n := |a| + |b|;
      Slices(xs, lo, a, b);
      Sweep(op, e.left, lo, whole, xs);
      Sweep(op, e.right, lo + |a|, whole, xs);
      SweepStep(op, e, Build(op, whole, GoneTo(op, xs, lo)),
        Two(Build(op, e.left, GoneTo(op, a, |a|)), Build(op, whole, GoneTo(op, xs, lo + |a|))),
        Two(Build(op, e.right, GoneTo(op, b, |b|)), Build(op, whole, GoneTo(op, xs, lo + n))));
      GoneBoth(op, a, b);
      BuildBin(op, e, GoneTo(op, Leaves(op, e), n), GoneTo(op, a, |a|), GoneTo(op, b, |b|));
    } else {
      SweepOne(op, lo, whole, xs);
      OnlyGone(op, e);
      assert xs[lo..lo + 1][0] == xs[lo];
    }
  }

  lemma OnlyGone(op: Op, e: Expr)
    requires !IsOp(e, op)
    ensures Leaves(op, e) == [e] && Build(op, e, GoneTo(op, [e], 1)) == Gone(op, e)
  {
    assert GoneTo(op, [e], 1) == [Gone(op, e)];
  }

  lemma SweepOne(op: Op, lo: nat, whole: Expr, xs: seq<Expr>)
    requires xs == Leaves(op, whole) && lo < |xs| && Eq(xs[lo], xs[lo])
    ensures EliminateOp(op, xs[lo], Build(op, whole, GoneTo(op, xs, lo)))
         == Two(Gone(op, xs[lo]), Build(op, whole, GoneTo(op, xs, lo + 1)))
  {
    hide Eq, Build, Leaves, EliminateOp;
    var x, ys := xs[lo], GoneTo(op, xs, lo);
    GoneOperands(op, xs, lo);
    forall j | 0 <= j < lo
      ensures !Takes(x, ys[j])
    {
      YnTakes(x, ys[j]);
    }
    if IsYn(x) {
      forall j | 0 <= j < |ys|
        ensures !Takes(x, ys[j])
      {
        YnTakes(x, ys[j]);
      }
      ScanNone(op, x, whole, ys);
      assert GoneTo(op, xs, lo + 1) == ys;
    } else {
      ScanTakes(op, x, whole, ys, lo);
      assert GoneTo(op, xs, lo + 1) == ys[lo := Sym(op.Unit())];
    }
  }

  /** A tree of y and n alone becomes one of them. */
  lemma {:induction false} YnTree(op: Op, e: Expr, ys: seq<Expr>)
    requires |ys| == |Leaves(op, e)| && forall k :: 0 <= k < |ys| ==> IsYn(ys[k])
    ensures IsYn(EliminateYn(Build(op, e, ys)))
  {
    if IsOp(e, op) {
      var n := |Leaves(op, e.left)|;
      YnTree(op, e.left, ys[..n]);
      YnTree(op, e.right, ys[n..]);
    }
  }

  /** Every expression equals itself. */
  lemma {:induction false} EqReflexive(e: Expr)
    ensures Eq(e, e)
    decreases Size(e)
  {
    if e.Bin? {
      var op, xs := e.op, Leaves(e.op, e);
      LeavesSize(op, e);
      forall k | 0 <= k < |xs|
        ensures Eq(xs[k], xs[k])
      {
        TotalUpdate(xs, k, xs[k]);
        EqReflexive(xs[k]);
      }
      WholeGone(op, e, xs);
    } else if e.Not? {
      EqReflexive(e.e);
    }
  }

  lemma WholeGone(op: Op, e: Expr, xs: seq<Expr>)
    requires IsOp(e, op) && xs == Leaves(op, e) && forall k :: 0 <= k < |xs| ==> Eq(xs[k], xs[k])
    ensures Eq(e, e)
  {
    hide Takes, EliminateOp;
    assert xs[0..|xs|] == xs && GoneTo(op, xs, 0) == xs;
    Sweep(op, e, 0, e, xs);
    BuildSame(op, e);
    YnTree(op, e, GoneTo(op, xs, |xs|));
  }

  // ----- what expr_eliminate_dups leaves -----

  ghost predicate NoneJoins(op: Op, xs: seq<Expr>, i: nat, j: nat)
    requires i < |xs|
  {
    forall k :: j <= k < |xs| && k != i ==> Join(op, xs[i], xs[k]).None?
  }

  lemma PairFixed(op: Op, a: Expr, b: Expr)
    requires !IsOp(a, op) && !IsOp(b, op) && JoinPair(op, a, b).n == 0
    ensures Join(op, a, b).None? && JoinPair(op, a, b) == Pair(a, b, 0)
  {
    hide Join, Dups1;
    JoinPairDirty(op, a, b);
  }

  lemma {:induction false} RowFixed(op: Op, xs: seq<Expr>, i: nat, j: nat)
    requires i < |xs| && j <= |xs| && Operands(op, xs) && JoinRow(op, xs, i, j).n == 0
    ensures NoneJoins(op, xs, i, j)
    decreases |xs| - j
  {
    hide JoinPair, Join;
    if j < |xs| {
      if i == j {
        RowFixed(op, xs, i, j + 1);
      } else {
        PutTwo(xs, i, j, xs[i], xs[j]);
        PairFixed(op, xs[i], xs[j]);
        assert xs[i := xs[i]][j := xs[j]] == xs;
        RowFixed(op, xs, i, j + 1);
      }
    }
  }

  lemma {:induction false} RowsFixed(op: Op, xs: seq<Expr>, i: nat)
    requires i <= |xs| && Operands(op, xs) && JoinRows(op, xs, i).n == 0
    ensures forall k :: i <= k < |xs| ==> NoneJoins(op, xs, k, 0)
    decreases |xs| - i
  {
    hide JoinRow, NoneJoins;
    if i < |xs| {
      JoinRowDirty(op, xs, i, 0);
      RowFixed(op, xs, i, 0);
      RowsFixed(op, xs, i + 1);
    }
  }

  /** The loop ends where another round changes nothing. */
  lemma {:induction false} Settles(e: Expr)
    ensures EliminateDups(e).Bin? ==> Pass(EliminateDups(e)).n == 0
    decreases Size(e)
  {
    hide Pass;
    if e.Bin? {
      PassShrinks(e);
      if Pass(e).n > 0 { Settles(EliminateYn(Pass(e).e)); }
    }
  }

  /** No two operands that are left can be joined. */
  lemma NothingJoins(e: Expr, i: nat, k: nat)
    requires var r := EliminateDups(e);
      r.Bin? && i < |Leaves(r.op, r)| && k < |Leaves(r.op, r)| && i != k
    ensures var r := EliminateDups(e);
      Join(r.op, Leaves(r.op, r)[i], Leaves(r.op, r)[k]).None?
  {
    hide EliminateDups, JoinRows, Join, Leaves, Build, Dups2;
    var r := EliminateDups(e);
    Settles(e);
    LeavesSize(r.op, r);
    RowsFixed(r.op, Leaves(r.op, r), 0);
    assert NoneJoins(r.op, Leaves(r.op, r), i, 0);
  }

  /** Two operands of an or, or an and, about one tristate symbol that say more together:
      equal to one of two of its values, or not equal to either; or equal to one and not
      equal to another. */
  predicate SayMore(op: Op, a: Expr, b: Expr, s: Symbol, p: Symbol, q: Symbol) {
    && s.Type() == Tristate && Special(p) && Special(q) && p != q
    && (op == Or ==> a == Equal(s, p) && b == Equal(s, q))
    && (op == And ==> BothSay(a, b, s, p, q))
  }

  predicate BothSay(a: Expr, b: Expr, s: Symbol, p: Symbol, q: Symbol) {
    || (a == Unequal(s, p) && b == Unequal(s, q))
    || (a == Equal(s, p) && b == Unequal(s, q))
    || (a == Equal(s, p) && b == Unequal(s, p))
  }

  /** After expr_eliminate_dups no operand occurs twice, no or has a boolean symbol and its
      negation, and no two comparisons of a tristate symbol with y, m or n are left that can
      be said as one. */
  lemma NothingRepeated(e: Expr, i: nat, k: nat)
    requires var r := EliminateDups(e);
      r.Bin? && i < |Leaves(r.op, r)| && k < |Leaves(r.op, r)| && i != k
    ensures var r := EliminateDups(e); var a, b := Leaves(r.op, r)[i], Leaves(r.op, r)[k];
      && a != b && !Eq(a, b)
      && (forall s: Symbol :: r.op == Or && s.Type() == Boolean ==> !(a == Sym(s) && b == Not(Sym(s))))
      && (forall s: Symbol, p: Symbol, q: Symbol :: !SayMore(r.op, a, b, s, p, q))
  {
    hide EliminateDups, Eq, Leaves;
    NothingJoins(e, i, k);
    var r := EliminateDups(e);
    EqReflexive(Leaves(r.op, r)[i]);
  }

  // ----- contradicting operands -----

  lemma NotRefuted(op: Op, e: Expr, xs: seq<Expr>, i: nat)
    requires IsOp(e, op) && xs == Leaves(op, e) && i < |xs| && RefuteBy(op, e, 0, xs, i).n == 0
    ensures !Refuted(op, xs[i], e)
  {
    hide Refuted, Leaves, Build, Dups2;
    SplitLeaves(op, e);
    var n := |Leaves(op, e.left)|;
    var x := RefuteBy(op, e.left, 0, xs, i);
    RefuteByDirty(op, e.left, 0, xs, i);
    var y := RefuteBy(op, e.right, n, x.xs, i);
    RefuteByDirty(op, e.right, n, x.xs, i);
    AgainstDirty(op, e, 0, List(y.xs, x.n + y.n), i);
    SimplifyDirty(op, xs[i]);
    assert xs[i := xs[i]] == xs && xs[0..|xs|] == xs;
    BuildSame(op, e);
  }

  lemma SplitLeaves(op: Op, e: Expr)
    requires IsOp(e, op)
    ensures |Leaves(op, e)| == |Leaves(op, e.left)| + |Leaves(op, e.right)|
  {
  }

  lemma {:induction false} RowsNotRefuted(op: Op, e: Expr, xs: seq<Expr>, i: nat, k: nat)
    requires IsOp(e, op) && xs == Leaves(op, e) && i <= k < |xs| && RefuteRows(op, e, xs, i).n == 0
    ensures !Refuted(op, xs[k], e)
    decreases k - i
  {
    hide Refuted, Leaves, RefuteBy;
    TotalUpdate(xs, i, xs[i]);
    var p := RefuteBy(op, e, 0, xs, i);
    TotalUpdate(xs, i, p.xs[i]);
    RefuteByDirty(op, e, 0, xs, i);
    if i == k { NotRefuted(op, e, xs, i); } else { RowsNotRefuted(op, e, xs, i + 1, k); }
  }

  /** After expr_eliminate_dups no operand is left of which the negation has all its operands
      among those of the whole, so that none contradicts the others in this way. */
  lemma NothingRefuted(e: Expr, k: nat)
    requires var r := EliminateDups(e); r.Bin? && k < |Leaves(r.op, r)|
    ensures var r := EliminateDups(e); !Refuted(r.op, Leaves(r.op, r)[k], r)
  {
    hide EliminateDups, Dups1, RefuteRows, Leaves, Refuted, Build;
    var r := EliminateDups(e);
    Settles(e);
    Dups1Dirty(r.op, r);
    LeavesSize(r.op, r);
    RowsNotRefuted(r.op, r, Leaves(r.op, r), 0, k);
  }
}
