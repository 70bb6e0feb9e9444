/** expr.h: dependency expressions over three-valued symbols, and their value
    (expr_calc_value) in an assignment of values to symbols. */
module Kconfig {
  /** n, m and y as 0, 1 and 2. */
  type Tri = x: int | 0 <= x <= 2

  function TriOr(a: Tri, b: Tri): Tri { if a > b then a else b }
  function TriAnd(a: Tri, b: Tri): Tri { if a < b then a else b }
  function TriNot(a: Tri): Tri { 2 - a }

  datatype Option<T> = None | Some(value: T)

  datatype Kind = Unknown | Boolean | Tristate | Int | Hex | String

  /** The name of a constant other than the three special symbols. */
  type Name = s: string | s != "y" && s != "m" && s != "n" witness ""

  /** A symbol: one of the three special ones, another constant, or a variable
      with its type. */
  datatype Symbol = Yes | Mod | No | Constant(text: Name) | Var(name: string, kind: Kind) {
    function Type(): Kind { if Var? then kind else Unknown }
    predicate IsConst() { !Var? }
  }

  datatype Op = And | Or {
    function Dual(): Op { if this == And then Or else And }
    /** The symbol that leaves the other operand as it is. */
    function Unit(): Symbol { if this == And then Yes else No }
    /** The symbol that decides the value alone. */
    function Zero(): Symbol { if this == And then No else Yes }
    function Apply(a: Tri, b: Tri): Tri { if this == And then TriAnd(a, b) else TriOr(a, b) }
  }

  /** struct expr, without the list and range types, which only occur in choices
      and value ranges. */
  datatype Expr = Sym(sym: Symbol) | Equal(l: Symbol, r: Symbol) | Unequal(l: Symbol, r: Symbol)
                | Not(e: Expr) | Bin(op: Op, left: Expr, right: Expr)

  /** The values that sym_calc_value has given to the symbols. */
  datatype Env = Env(tri: Symbol -> Tri, str: Symbol -> string)

  function TriName(v: Tri): string { if v == 0 then "n" else if v == 1 then "m" else "y" }

  /** Constants stand for themselves; a boolean symbol is never m; a boolean or
      tristate symbol compares as the name of its value. */
  ghost predicate Typed(v: Env) {
    && v.tri(Yes) == 2 && v.tri(Mod) == 1 && v.tri(No) == 0
    && v.str(Yes) == "y" && v.str(Mod) == "m" && v.str(No) == "n"
    && forall s: Symbol :: TypedAt(v, s)
  }

  ghost predicate TypedAt(v: Env, s: Symbol) {
    && (s.Constant? ==> v.str(s) == s.text)
    && (s.Type() == Boolean ==> v.tri(s) != 1)
    && (s.Type() == Boolean || s.Type() == Tristate ==> v.str(s) == TriName(v.tri(s)))
  }

  function Truth(b: bool): Tri { if b then 2 else 0 }

  /** expr_calc_value */
  function Value(v: Env, e: Expr): Tri {
    match e
    case Sym(s) => v.tri(s)
    case Equal(l, r) => Truth(v.str(l) == v.str(r))
    case Unequal(l, r) => Truth(v.str(l) != v.str(r))
    case Not(a) => TriNot(Value(v, a))
    case Bin(op, a, b) => op.Apply(Value(v, a), Value(v, b))
  }

  function Size(e: Expr): (n: nat)
    ensures n > 0
  {
    match e
    case Not(a) => 1 + Size(a)
    case Bin(_, a, b) => 1 + Size(a) + Size(b)
    case _ => 1
  }

  predicate IsOp(e: Expr, op: Op) { e.Bin? && e.op == op }

  // ----- laws of the operators -----

  lemma OpLaws(op: Op, a: Tri, b: Tri, c: Tri)
    ensures op.Apply(a, op.Apply(b, c)) == op.Apply(op.Apply(a, b), c)
    ensures op.Apply(a, b) == op.Apply(b, a) && op.Apply(a, a) == a
  {
  }

  lemma OpShuffle(op: Op, a: Tri, b: Tri, x: Tri, y: Tri)
    ensures op.Apply(op.Apply(a, x), op.Apply(b, y)) == op.Apply(op.Apply(a, b), op.Apply(x, y))
    ensures op.Apply(a, op.Apply(b, x)) == op.Apply(op.Apply(a, b), x)
  {
  }

  lemma UnitValue(v: Env, op: Op, a: Tri)
    requires Typed(v)
    ensures op.Apply(v.tri(op.Unit()), a) == a && op.Apply(a, v.tri(op.Unit())) == a
    ensures op.Apply(v.tri(op.Zero()), a) == v.tri(op.Zero()) && op.Apply(a, v.tri(op.Zero())) == v.tri(op.Zero())
  {
  }

  // ----- expr_eliminate_yn -----

  /** expr_eliminate_yn: constants y and n disappear from and and or. */
  function EliminateYn(e: Expr): (r: Expr)
    ensures Size(r) <= Size(e)
  {
    match e
    case Bin(op, a, b) =>
      var x, y := EliminateYn(a), EliminateYn(b);
      if x == Sym(op.Zero()) then Sym(op.Zero())
      else if x == Sym(op.Unit()) then y
      else if y == Sym(op.Zero()) then Sym(op.Zero())
      else if y == Sym(op.Unit()) then x
      else Bin(op, x, y)
    case _ => e
  }

  predicate IsYn(e: Expr) { e == Sym(Yes) || e == Sym(No) }

  /** No operand of an and or an or is y or n. */
  predicate Clean(e: Expr) {
    e.Bin? ==> Clean(e.left) && Clean(e.right) && !IsYn(e.left) && !IsYn(e.right)
  }

  /** The value stays the same. */
  lemma {:induction false} YnValue(v: Env, e: Expr)
    requires Typed(v)
    ensures Value(v, EliminateYn(e)) == Value(v, e)
  {
    if e.Bin? {
      YnValue(v, e.left);
      YnValue(v, e.right);
      UnitValue(v, e.op, Value(v, e.left));
      UnitValue(v, e.op, Value(v, e.right));
    }
  }

  /** Nothing is left to do, and nothing is done where there was nothing to do;
      what was done made the expression smaller. */
  lemma {:induction false} YnClean(e: Expr)
    ensures Clean(EliminateYn(e))
    ensures Clean(e) <==> EliminateYn(e) == e
    ensures !Clean(e) ==> Size(EliminateYn(e)) < Size(e)
  {
    if e.Bin? {
      YnClean(e.left);
      YnClean(e.right);
    }
  }
}
