/** expr.c, second part: pushing negations down to symbols, and comparing an
    expression with a constant. */
module ExprTransform {
  import opened Kconfig

  predicate Special(s: Symbol) { s == Yes || s == Mod || s == No }

  function Negated(s: Symbol): Symbol
    requires Special(s)
  {
    if s == Yes then No else if s == No then Yes else Mod
  }

  /** What decreases while negations are pushed down. */
  function Weight(e: Expr): (n: nat)
    ensures n > 0
  {
    match e
    case Sym(_) => 1
    case Not(a) => 2 * Weight(a)
    case Bin(_, a, b) => Weight(a) + Weight(b) + 1
    case _ => 2
  }

  lemma PushWeight(op: Op, op': Op, a: Expr, b: Expr)
    ensures Weight(Bin(op', Not(a), Not(b))) < Weight(Not(Bin(op, a, b)))
  {
    assert Weight(Not(a)) == 2 * Weight(a) && Weight(Not(b)) == 2 * Weight(b);
    assert Weight(Not(Bin(op, a, b))) == 2 * Weight(Bin(op, a, b));
  }

  /** expr_transform */
  function Transform(e: Expr): (r: Expr)
    ensures Weight(r) <= Weight(e)
    decreases Weight(e)
  {
    match e
    case Sym(_) => e
    case Equal(l, r) =>
      if l.Type() != Boolean then e
      else if r == No then Not(Sym(l))
      else if r == Mod then Sym(No)
      else if r == Yes then Sym(l)
      else e
    case Unequal(l, r) =>
      if l.Type() != Boolean then e
      else if r == No then Sym(l)
      else if r == Mod then Sym(Yes)
      else if r == Yes then Not(Sym(l))
      else e
    case Bin(op, a, b) => Bin(op, Transform(a), Transform(b))
    case Not(a) =>
      var x := Transform(a);
      match x
      case Not(y) => Transform(y)
      case Equal(l, r) => Unequal(l, r)
      case Unequal(l, r) => Equal(l, r)
      case Bin(op, p, q) =>
        PushWeight(op, op.Dual(), p, q);
        Transform(Bin(op.Dual(), Not(p), Not(q)))
      case Sym(s) => if Special(s) then Sym(Negated(s)) else Not(x)
  }

  /** Negations only over symbols that are not y, m or n, and no boolean symbol
      compared with one of those. */
  predicate Normal(e: Expr) {
    match e
    case Sym(_) => true
    case Equal(l, r) => l.Type() != Boolean || !Special(r)
    case Unequal(l, r) => l.Type() != Boolean || !Special(r)
    case Not(a) => a.Sym? && !Special(a.sym)
    case Bin(_, a, b) => Normal(a) && Normal(b)
  }

  lemma {:induction false} TransformNormal(e: Expr)
    ensures Normal(Transform(e))
    decreases Weight(e)
  {
    match e
    case Bin(_, a, b) =>
      TransformNormal(a);
      TransformNormal(b);
    case Not(a) =>
      TransformNormal(a);
      var x := Transform(a);
      if x.Not? { TransformNormal(x.e); }
      if x.Bin? {
        PushWeight(x.op, x.op.Dual(), x.left, x.right);
        TransformNormal(Bin(x.op.Dual(), Not(x.left), Not(x.right)));
      }
    case _ =>
  }

  /** A second run changes nothing. */
  lemma {:induction false} TransformOnce(e: Expr)
    ensures Normal(e) <==> Transform(e) == e
    ensures Transform(Transform(e)) == Transform(e)
  {
    NormalFixed(Transform(e));
    TransformNormal(e);
    if Normal(e) { NormalFixed(e); }
  }

  lemma {:induction false} NormalFixed(e: Expr)
    ensures Normal(e) ==> Transform(e) == e
  {
    if e.Bin? && Normal(e) {
      NormalFixed(e.left);
      NormalFixed(e.right);
    }
  }

  /** De Morgan's laws for three values. */
  lemma DeMorgan(op: Op, a: Tri, b: Tri)
    ensures TriNot(op.Apply(a, b)) == op.Dual().Apply(TriNot(a), TriNot(b))
  {
  }

  /** A boolean symbol compared with a special one. */
  lemma BooleanCompare(v: Env, l: Symbol)
    requires Typed(v) && l.Type() == Boolean
    ensures v.str(l) == v.str(No) <==> v.tri(l) == 0
    ensures v.str(l) == v.str(Yes) <==> v.tri(l) == 2
    ensures v.str(l) != v.str(Mod) && v.tri(l) != 1
  {
    assert TypedAt(v, l);
    assert "n"[0] != "y"[0] && "m"[0] != "y"[0] && "m"[0] != "n"[0];
  }

  /** The value stays the same in every well-typed assignment. */
  lemma {:induction false} TransformValue(v: Env, e: Expr)
    requires Typed(v)
    ensures Value(v, Transform(e)) == Value(v, e)
    decreases Weight(e)
  {
    match e
    case Sym(_) =>
    case Equal(l, r) => if l.Type() == Boolean { BooleanCompare(v, l); }
    case Unequal(l, r) => if l.Type() == Boolean { BooleanCompare(v, l); }
    case Bin(_, a, b) =>
      TransformValue(v, a);
      TransformValue(v, b);
    case Not(a) =>
      TransformValue(v, a);
      var x := Transform(a);
      if x.Not? { TransformValue(v, x.e); }
      if x.Bin? {
        PushWeight(x.op, x.op.Dual(), x.left, x.right);
        TransformValue(v, Bin(x.op.Dual(), Not(x.left), Not(x.right)));
        DeMorgan(x.op, Value(v, x.left), Value(v, x.right));
      }
  }

  // ----- expr_trans_bool -----

  /** expr_trans_bool */
  function TransBool(e: Expr): Expr {
    match e
    case Bin(op, a, b) => Bin(op, TransBool(a), TransBool(b))
    case Not(a) => Not(TransBool(a))
    case Unequal(l, r) => if l.Type() == Tristate && r == No then Sym(l) else e
    case _ => e
  }

  /** Where m counts as y, as it does for a boolean symbol, the value stays the
      same once negations have been pushed down. */
  lemma {:induction false} TransBoolTruth(v: Env, e: Expr)
    requires Typed(v) && Normal(e)
    ensures Value(v, TransBool(e)) == 0 <==> Value(v, e) == 0
  {
    if e.Bin? {
      TransBoolTruth(v, e.left);
      TransBoolTruth(v, e.right);
    }
    if e.Unequal? && e.l.Type() == Tristate && e.r == No {
      assert TypedAt(v, e.l);
      assert "n"[0] != "y"[0] && "m"[0] != "n"[0];
    }
  }

  /** No tristate symbol is left that is compared to be not n. */
  predicate NoCompare(e: Expr) {
    match e
    case Unequal(l, r) => !(l.Type() == Tristate && r == No)
    case Not(a) => NoCompare(a)
    case Bin(_, a, b) => NoCompare(a) && NoCompare(b)
    case _ => true
  }

  lemma {:induction false} TransBoolDone(e: Expr)
    ensures NoCompare(TransBool(e)) && (NoCompare(e) <==> TransBool(e) == e)
  {
    match e
    case Not(a) => TransBoolDone(a);
    case Bin(_, a, b) =>
      TransBoolDone(a);
      TransBoolDone(b);
    case _ =>
  }

  // ----- expr_trans_compare -----

  datatype Rel = Is | IsNot {
    function Flip(): Rel { if this == Is then IsNot else Is }
    function Holds(b: bool): Tri { Truth(if this == Is then b else !b) }
  }

  function Wrap(rel: Rel, e: Expr): Expr { if rel == IsNot then Not(e) else e }

  /** expr_trans_compare with y or n: an expression for `e = s` or `e != s`. */
  function TransCompare(e: Expr, rel: Rel, s: Symbol): Expr
    requires s == Yes || s == No
  {
    match e
    case Bin(op, a, b) =>
      var x, y := TransCompare(a, Is, s), TransCompare(b, Is, s);
      Wrap(rel, Bin(if s == Yes then op else op.Dual(), x, y))
    case Not(a) => TransCompare(a, rel.Flip(), s)
    case Sym(t) => if rel == Is then Equal(t, s) else Unequal(t, s)
    case _ => if (rel == Is) == (s == Yes) then e else Not(e)
  }

  /** What the result should be. */
  function Compared(v: Env, e: Expr, rel: Rel, s: Symbol): Tri { rel.Holds(Value(v, e) == v.tri(s)) }

  /** A symbol compares as its value does. */
  ghost predicate Comparable(v: Env, e: Expr) {
    match e
    case Sym(t) => v.str(t) == TriName(v.tri(t))
    case Not(a) => Comparable(v, a)
    case Bin(_, a, b) => Comparable(v, a) && Comparable(v, b)
    case _ => true
  }

  /** No operand of a negation is m. */
  ghost predicate NoNegatedMod(v: Env, e: Expr) {
    match e
    case Not(a) => Value(v, a) != 1 && NoNegatedMod(v, a)
    case Bin(_, a, b) => NoNegatedMod(v, a) && NoNegatedMod(v, b)
    case _ => true
  }

  lemma CompareApply(op: Op, a: Tri, b: Tri, s: Tri)
    requires s == 0 || s == 2
    ensures (if s == 2 then op else op.Dual()).Apply(Truth(a == s), Truth(b == s)) == Truth(op.Apply(a, b) == s)
  {
  }

  lemma Names(a: Tri, b: Tri)
    ensures TriName(a) == TriName(b) <==> a == b
    ensures TriName(0) == "n" && TriName(2) == "y"
  {
    assert "n"[0] != "y"[0] && "m"[0] != "y"[0] && "m"[0] != "n"[0];
  }

  /** The comparison is exact unless the operand of a negation is m. */
  lemma {:induction false} TransCompareValue(v: Env, e: Expr, rel: Rel, s: Symbol)
    requires Typed(v) && (s == Yes || s == No) && Comparable(v, e) && NoNegatedMod(v, e)
    ensures Value(v, TransCompare(e, rel, s)) == Compared(v, e, rel, s)
  {
    hide TriName, Op.Apply, Op.Dual;
    match e
    case Bin(op, a, b) =>
      TransCompareValue(v, a, Is, s);
      TransCompareValue(v, b, Is, s);
      CompareApply(op, Value(v, a), Value(v, b), v.tri(s));
    case Not(a) => TransCompareValue(v, a, rel.Flip(), s);
    case Sym(t) => Names(v.tri(t), v.tri(s));
    case _ =>
  }

  predicate NoNot(e: Expr) {
    match e
    case Not(_) => false
    case Bin(_, a, b) => NoNot(a) && NoNot(b)
    case _ => true
  }

  lemma {:induction false} NoNotNoMod(v: Env, e: Expr)
    requires NoNot(e)
    ensures NoNegatedMod(v, e)
  {
    if e.Bin? {
      NoNotNoMod(v, e.left);
      NoNotNoMod(v, e.right);
    }
  }

  /** A single negation is compared exactly if and only if its operand is not m. */
  lemma TransCompareNot(v: Env, a: Expr, rel: Rel, s: Symbol)
    requires Typed(v) && (s == Yes || s == No) && Comparable(v, a) && NoNot(a)
    ensures Value(v, TransCompare(Not(a), rel, s)) == Compared(v, Not(a), rel, s) <==> Value(v, a) != 1
  {
    NoNotNoMod(v, a);
    TransCompareValue(v, a, rel.Flip(), s);
  }

  /** The value of e if a negation could only be s or its opposite: s, unless its
      operand is s. */
  function Counted(v: Env, e: Expr, s: Symbol): Tri {
    match e
    case Not(a) => if Counted(v, a, s) == v.tri(s) then TriNot(v.tri(s)) else v.tri(s)
    case Bin(op, a, b) => op.Apply(Counted(v, a, s), Counted(v, b, s))
    case _ => Value(v, e)
  }

  /** This is what expr_trans_compare compares with s, whatever the expression. */
  lemma {:induction false} TransCompareCounted(v: Env, e: Expr, rel: Rel, s: Symbol)
    requires Typed(v) && (s == Yes || s == No) && Comparable(v, e)
    ensures Value(v, TransCompare(e, rel, s)) == rel.Holds(Counted(v, e, s) == v.tri(s))
  {
    hide TriName, Op.Apply, Op.Dual;
    match e
    case Bin(op, a, b) =>
      TransCompareCounted(v, a, Is, s);
      TransCompareCounted(v, b, Is, s);
      CompareApply(op, Counted(v, a, s), Counted(v, b, s), v.tri(s));
    case Not(a) => TransCompareCounted(v, a, rel.Flip(), s);
    case Sym(t) => Names(v.tri(t), v.tri(s));
    case _ =>
  }

  /** In a normal form it errs to one side only. */
  lemma {:induction false} CountedNormal(v: Env, e: Expr, s: Symbol)
    requires Typed(v) && (s == Yes || s == No) && Normal(e)
    ensures if s == Yes then Counted(v, e, s) >= Value(v, e) else Counted(v, e, s) <= Value(v, e)
  {
    if e.Bin? {
      CountedNormal(v, e.left, s);
      CountedNormal(v, e.right, s);
    }
  }

  /** For normal forms the comparison is exact if and only if the expression is s
      wherever it would be with its negations that are m counted as s. */
  lemma TransCompareNormal(v: Env, e: Expr, rel: Rel, s: Symbol)
    requires Typed(v) && (s == Yes || s == No) && Comparable(v, e) && Normal(e)
    ensures Value(v, TransCompare(e, rel, s)) == Compared(v, e, rel, s)
       <==> (Counted(v, e, s) == v.tri(s) ==> Value(v, e) == v.tri(s))
  {
    TransCompareCounted(v, e, rel, s);
    CountedNormal(v, e, s);
  }
}
