/** symbol.c: the values of the symbols of a configuration, as the solution of one
    equation for each symbol. If there is an order in which every symbol is given
    in terms of earlier ones, there is exactly one solution. */
module SymValues {
  import opened Kconfig
  import opened Symbols

  /** struct symbol_value */
  datatype Val = Val(tri: Tri, text: string)

  /** strtol, and sprintf with %d and with 0x%x */
  datatype Lib = Lib(strtol: (string, int) -> int, dec: int -> string, hex: int -> string)

  /** Everything a value depends on: the configuration, the values set by the user,
      modules_val, modules_sym, and the symbols with SYMBOL_AUTO. */
  datatype Context = Context(config: Config, user: map<Symbol, Val>, modules: Tri, modulesSym: Symbol,
                             auto: set<Symbol>, lib: Lib) {
    /** What the symbols are in the expressions of the configuration. */
    function Env(v: Assignment): Env { EnvOf(modulesSym, v) }
  }

  type Assignment = Symbol -> Val

  predicate IsTri(s: Symbol) { s.Type() == Boolean || s.Type() == Tristate }

  predicate IsText(s: Symbol) { s.Type() == Int || s.Type() == Hex || s.Type() == String }

  /** sym_get_string_value */
  function Text(m: Symbol, v: Assignment, s: Symbol): string {
    if !IsTri(s) then v(s).text
    else if v(s).tri == 1 && v(m).tri == 0 then "n"
    else TriName(v(s).tri)
  }

  function EnvOf(m: Symbol, v: Assignment): Env {
    Env(s => v(s).tri, s => Text(m, v, s))
  }

  /** expr_calc_value, which is y if there is no expression */
  function OptValue(env: Env, e: Option<Expr>): Tri {
    if e.None? then 2 else Value(env, e.value)
  }

  // ----- the equations -----

  /** sym_get_type, without choices */
  function EffectiveType(modules: Tri, s: Symbol): Kind {
    if s.Type() == Tristate && modules == 0 then Boolean else s.Type()
  }

  /** m becomes y for what is boolean. */
  function Promote(boolean: bool, t: Tri): Tri {
    if t == 1 && boolean then 2 else t
  }

  /** The greatest visibility of the first n prompts. */
  function PromptTri(env: Env, props: seq<Property>, n: nat): Tri
    requires n <= |props|
  {
    if n == 0 then 0
    else if props[n - 1].Prompt? then TriOr(PromptTri(env, props, n - 1), OptValue(env, props[n - 1].visible))
    else PromptTri(env, props, n - 1)
  }

  function VisibleTri(c: Context, v: Assignment, s: Symbol): Tri {
    var props := Def(c.config, s).props;
    Promote(s.Type() != Tristate || c.modules == 0, PromptTri(c.Env(v), props, |props|))
  }

  function RevTri(c: Context, v: Assignment, s: Symbol): Tri {
    var e := Def(c.config, s).revDep;
    Promote(EffectiveType(c.modules, s) == Boolean, if e.None? then 0 else OptValue(c.Env(v), e))
  }

  function DirTri(c: Context, v: Assignment, s: Symbol): Tri {
    Promote(true, OptValue(c.Env(v), Def(c.config, s).dirDep))
  }

  predicate Applies(env: Env, p: Property, default: bool) {
    (if default then p.Default? else p.Range?) && OptValue(env, p.visible) != 0
  }

  /** sym_get_default_prop and sym_get_range_prop: the first that is visible, from
      the i-th on; the number of properties if there is none. */
  function First(env: Env, props: seq<Property>, default: bool, i: nat): (k: nat)
    requires i <= |props|
    ensures i <= k <= |props|
    ensures k < |props| ==> Applies(env, props[k], default)
    decreases |props| - i
  {
    if i == |props| || Applies(env, props[i], default) then i else First(env, props, default, i + 1)
  }

  /** The value of a boolean or tristate symbol. */
  function TriOf(c: Context, v: Assignment, s: Symbol): Tri {
    var props := Def(c.config, s).props;
    var visible := VisibleTri(c, v, s);
    var k := First(c.Env(v), props, true, 0);
    var own := if visible != 0 && s in c.user then TriAnd(c.user[s].tri, visible)
               else if k == |props| then 0
               else TriAnd(Value(c.Env(v), props[k].e), OptValue(c.Env(v), props[k].visible));
    Promote(EffectiveType(c.modules, s) == Boolean, TriOr(own, RevTri(c, v, s)))
  }

  /** The value of an int, hex or string symbol before its range is looked at. */
  function TextOf(c: Context, v: Assignment, s: Symbol): string {
    var props := Def(c.config, s).props;
    var k := First(c.Env(v), props, true, 0);
    if VisibleTri(c, v, s) != 0 && s in c.user then c.user[s].text
    else if k < |props| && props[k].e.Sym? then v(props[k].e.sym).text
    else ""
  }

  function Base(s: Symbol, base: int): int {
    if s.Type() == Int then 10 else if s.Type() == Hex then 16 else base
  }

  /** sym_validate_range for bounds lo and hi */
  function Clamp(c: Context, v: Assignment, s: Symbol, lo: Symbol, hi: Symbol, text: string): string {
    var base := Base(s, 10);
    var format := if s.Type() == Int then c.lib.dec else c.lib.hex;
    var low, high := c.lib.strtol(v(lo).text, Base(lo, base)), c.lib.strtol(v(hi).text, Base(hi, base));
    var number := c.lib.strtol(text, base);
    if number < low then format(low) else if number > high then format(high) else text
  }

  function InRange(c: Context, v: Assignment, s: Symbol, text: string): string {
    var props := Def(c.config, s).props;
    var k := First(c.Env(v), props, false, 0);
    if s.Type() == String || k == |props| then text else Clamp(c, v, s, props[k].lo, props[k].hi, text)
  }

  /** The right-hand side of the equation of a symbol. */
  function Eval(c: Context, v: Assignment, s: Symbol): Val {
    match s
    case Yes => Val(2, "y")
    case Mod => Val(1, "m")
    case No => Val(0, "n")
    case Constant(text) => Val(0, text)
    case Var(name, kind) =>
      if IsTri(s) then Val(TriOf(c, v, s), "n")
      else if IsText(s) then Val(0, InRange(c, v, s, TextOf(c, v, s)))
      else Val(0, name)
  }

  ghost predicate Solves(c: Context, v: Assignment) {
    forall s :: v(s) == Eval(c, v, s)
  }

  /** Whether a symbol is to be saved (SYMBOL_WRITE). */
  predicate Written(c: Context, v: Assignment, s: Symbol) {
    var props := Def(c.config, s).props;
    var k := First(c.Env(v), props, true, 0);
    && s !in c.auto
    && (VisibleTri(c, v, s) != 0 || (k < |props| && (IsText(s) ==> props[k].e.Sym?))
      || (IsTri(s) && RevTri(c, v, s) != 0))
  }

  // ----- which symbols a symbol depends on -----

  type Rank = Symbol -> nat

  /** To compare a symbol that may be m, the modules symbol is looked at as well. */
  predicate ComparedBelow(rank: Rank, m: Symbol, n: nat, s: Symbol) {
    rank(s) < n && (s.Type() == Tristate ==> rank(m) < n)
  }

  /** All symbols that the value of e depends on have a rank below n. */
  predicate Below(rank: Rank, m: Symbol, n: nat, e: Expr) {
    match e
    case Sym(s) => rank(s) < n
    case Equal(l, r) => ComparedBelow(rank, m, n, l) && ComparedBelow(rank, m, n, r)
    case Unequal(l, r) => ComparedBelow(rank, m, n, l) && ComparedBelow(rank, m, n, r)
    case Not(a) => Below(rank, m, n, a)
    case Bin(_, a, b) => Below(rank, m, n, a) && Below(rank, m, n, b)
  }

  predicate OptBelow(rank: Rank, m: Symbol, n: nat, e: Option<Expr>) {
    e.Some? ==> Below(rank, m, n, e.value)
  }

  predicate PropBelow(rank: Rank, m: Symbol, n: nat, p: Property) {
    match p
    case Prompt(visible) => OptBelow(rank, m, n, visible)
    case Default(visible, e) => OptBelow(rank, m, n, visible) && Below(rank, m, n, e)
    case Range(visible, lo, hi) => OptBelow(rank, m, n, visible) && rank(lo) < n && rank(hi) < n
    case _ => true
  }

  predicate DefBelow(rank: Rank, m: Symbol, n: nat, d: Definition) {
    && OptBelow(rank, m, n, d.dirDep) && OptBelow(rank, m, n, d.revDep)
    && forall p :: p in d.props ==> PropBelow(rank, m, n, p)
  }

  /** Every symbol depends only on symbols of lower rank. */
  ghost predicate Ranked(c: Config, m: Symbol, rank: Rank) {
    forall s :: DefBelow(rank, m, rank(s), Def(c, s))
  }

  /** A boolean symbol is never m. */
  ghost predicate TwoValued(v: Assignment) {
    forall s: Symbol :: s.Type() == Boolean ==> v(s).tri != 1
  }

  ghost predicate SameBelow(rank: Rank, n: nat, v: Assignment, w: Assignment) {
    forall s :: rank(s) < n ==> v(s) == w(s)
  }

  // ----- a value depends on values of lower rank only -----

  /** Two assignments that agree below a rank. */
  datatype Pair = Pair(rank: Rank, n: nat, v: Assignment, w: Assignment) {
    ghost predicate Agree() { SameBelow(rank, n, v, w) && TwoValued(v) && TwoValued(w) }
  }

  lemma {:induction false} ValueSame(c: Context, p: Pair, e: Expr)
    requires p.Agree() && Below(p.rank, c.modulesSym, p.n, e)
    ensures Value(c.Env(p.v), e) == Value(c.Env(p.w), e)
  {
    match e
    case Not(a) => ValueSame(c, p, a);
    case Bin(_, a, b) => ValueSame(c, p, a); ValueSame(c, p, b);
    case _ =>
  }

  lemma OptValueSame(c: Context, p: Pair, e: Option<Expr>)
    requires p.Agree() && OptBelow(p.rank, c.modulesSym, p.n, e)
    ensures OptValue(c.Env(p.v), e) == OptValue(c.Env(p.w), e)
  {
    if e.Some? { ValueSame(c, p, e.value); }
  }

  lemma {:induction false} PromptSame(c: Context, p: Pair, props: seq<Property>, n: nat)
    requires p.Agree() && n <= |props| && forall q :: q in props ==> PropBelow(p.rank, c.modulesSym, p.n, q)
    ensures PromptTri(c.Env(p.v), props, n) == PromptTri(c.Env(p.w), props, n)
  {
    if n > 0 {
      PromptSame(c, p, props, n - 1);
      assert PropBelow(p.rank, c.modulesSym, p.n, props[n - 1]);
      if props[n - 1].Prompt? { OptValueSame(c, p, props[n - 1].visible); }
    }
  }

  lemma {:induction false} FirstSame(c: Context, p: Pair, props: seq<Property>, default: bool, i: nat)
    requires p.Agree() && i <= |props| && forall q :: q in props ==> PropBelow(p.rank, c.modulesSym, p.n, q)
    ensures First(c.Env(p.v), props, default, i) == First(c.Env(p.w), props, default, i)
    decreases |props| - i
  {
    if i < |props| {
      assert PropBelow(p.rank, c.modulesSym, p.n, props[i]);
      if props[i].Default? || props[i].Range? { OptValueSame(c, p, props[i].visible); }
      FirstSame(c, p, props, default, i + 1);
    }
  }

  lemma DefaultSame(c: Context, p: Pair, props: seq<Property>)
    requires p.Agree() && forall q :: q in props ==> PropBelow(p.rank, c.modulesSym, p.n, q)
    ensures var k := First(c.Env(p.v), props, true, 0);
            && k == First(c.Env(p.w), props, true, 0)
            && (k < |props| ==> OptValue(c.Env(p.v), props[k].visible) == OptValue(c.Env(p.w), props[k].visible)
                                && Value(c.Env(p.v), props[k].e) == Value(c.Env(p.w), props[k].e)
                                && (props[k].e.Sym? ==> p.v(props[k].e.sym) == p.w(props[k].e.sym)))
  {
    FirstSame(c, p, props, true, 0);
    var k := First(c.Env(p.v), props, true, 0);
    if k < |props| {
      assert PropBelow(p.rank, c.modulesSym, p.n, props[k]);
      OptValueSame(c, p, props[k].visible);
      ValueSame(c, p, props[k].e);
    }
  }

  lemma RangeSame(c: Context, p: Pair, s: Symbol, text: string)
    requires p.Agree() && forall q :: q in Def(c.config, s).props ==> PropBelow(p.rank, c.modulesSym, p.n, q)
    ensures InRange(c, p.v, s, text) == InRange(c, p.w, s, text)
  {
    var props := Def(c.config, s).props;
    FirstSame(c, p, props, false, 0);
    var k := First(c.Env(p.v), props, false, 0);
    if k < |props| {
      assert PropBelow(p.rank, c.modulesSym, p.n, props[k]);
      assert p.v(props[k].lo) == p.w(props[k].lo) && p.v(props[k].hi) == p.w(props[k].hi);
    }
  }

  lemma SideSame(c: Context, p: Pair, s: Symbol)
    requires p.Agree() && DefBelow(p.rank, c.modulesSym, p.n, Def(c.config, s))
    ensures VisibleTri(c, p.v, s) == VisibleTri(c, p.w, s) && RevTri(c, p.v, s) == RevTri(c, p.w, s)
  {
    var d := Def(c.config, s);
    PromptSame(c, p, d.props, |d.props|);
    OptValueSame(c, p, d.revDep);
  }

  lemma EvalSame(c: Context, p: Pair, s: Symbol)
    requires p.Agree() && DefBelow(p.rank, c.modulesSym, p.n, Def(c.config, s))
    ensures Eval(c, p.v, s) == Eval(c, p.w, s)
  {
    SideSame(c, p, s);
    DefaultSame(c, p, Def(c.config, s).props);
    if IsText(s) {
      assert TextOf(c, p.v, s) == TextOf(c, p.w, s);
      RangeSame(c, p, s, TextOf(c, p.v, s));
    }
  }

  // ----- exactly one solution -----

  lemma SolutionTwoValued(c: Context, v: Assignment)
    requires Solves(c, v)
    ensures TwoValued(v)
  {
    forall s: Symbol | s.Type() == Boolean ensures v(s).tri != 1 {
      assert v(s) == Eval(c, v, s);
    }
  }

  /** Solutions agree on every symbol. */
  lemma Unique(c: Context, rank: Rank, v: Assignment, w: Assignment)
    requires Ranked(c.config, c.modulesSym, rank) && Solves(c, v) && Solves(c, w)
    ensures forall s :: v(s) == w(s)
  {
    SolutionTwoValued(c, v);
    SolutionTwoValued(c, w);
    forall s ensures v(s) == w(s) {
      UniqueBelow(c, Pair(rank, rank(s) + 1, v, w));
    }
  }

  lemma {:induction false} UniqueBelow(c: Context, p: Pair)
    requires Ranked(c.config, c.modulesSym, p.rank) && Solves(c, p.v) && Solves(c, p.w)
    requires TwoValued(p.v) && TwoValued(p.w)
    ensures SameBelow(p.rank, p.n, p.v, p.w)
    decreases p.n
  {
    if p.n > 0 {
      var q := p.(n := p.n - 1);
      UniqueBelow(c, q);
      forall s | p.rank(s) < p.n ensures p.v(s) == p.w(s) {
        if p.rank(s) == q.n {
          EvalSame(c, q, s);
        }
      }
    }
  }

  /** The values after n rounds of the equations. */
  function Round(c: Context, n: nat): Assignment {
    if n == 0 then s => Val(0, "") else var v := Round(c, n - 1); s => Eval(c, v, s)
  }

  lemma RoundNext(c: Context, n: nat, s: Symbol)
    ensures Round(c, n + 1)(s) == Eval(c, Round(c, n), s)
  {
  }

  lemma RoundTwoValued(c: Context, n: nat)
    ensures TwoValued(Round(c, n))
  {
  }

  /** After n rounds, the values of rank below n are settled. */
  lemma {:induction false} RoundSettles(c: Context, rank: Rank, n: nat)
    requires Ranked(c.config, c.modulesSym, rank)
    ensures SameBelow(rank, n, Round(c, n), Round(c, n + 1))
    decreases n
  {
    hide Eval, DefBelow, TwoValued;
    if n > 0 {
      hide Round;
      RoundSettles(c, rank, n - 1);
      RoundTwoValued(c, n);
      RoundTwoValued(c, n - 1);
      forall s | rank(s) < n ensures Round(c, n)(s) == Round(c, n + 1)(s) {
        RoundNext(c, n - 1, s);
        RoundNext(c, n, s);
        EvalSame(c, Pair(rank, rank(s), Round(c, n - 1), Round(c, n)), s);
      }
    }
  }

  lemma {:induction false} RoundStays(c: Context, rank: Rank, n: nat, k: nat)
    requires Ranked(c.config, c.modulesSym, rank) && n <= k
    ensures SameBelow(rank, n, Round(c, n), Round(c, k))
    decreases k
  {
    hide Round, Ranked;
    if n < k {
      RoundStays(c, rank, n, k - 1);
      RoundSettles(c, rank, k - 1);
    }
  }

  /** The plain recursive definition: enough rounds for the rank of the symbol. */
  function Solution(c: Context, rank: Rank): Assignment {
    s => Round(c, rank(s) + 1)(s)
  }

  lemma SolutionSolves(c: Context, rank: Rank)
    requires Ranked(c.config, c.modulesSym, rank)
    ensures Solves(c, Solution(c, rank))
  {
    var v := Solution(c, rank);
    forall s: Symbol | s.Type() == Boolean ensures v(s).tri != 1 { RoundTwoValued(c, rank(s) + 1); }
    forall s ensures v(s) == Eval(c, v, s) {
      hide Round, Eval;
      var n := rank(s);
      RoundNext(c, n, s);
      var w := Round(c, n);
      forall t | rank(t) < n ensures w(t) == v(t) { RoundStays(c, rank, rank(t) + 1, n); }
      RoundTwoValued(c, n);
      EvalSame(c, Pair(rank, n, w, v), s);
    }
  }

  /** The values are a well-typed assignment, so that what holds of the rewriting
      of expressions holds in every configuration. */
  lemma SolutionTyped(c: Context, v: Assignment)
    requires Solves(c, v) && v(c.modulesSym).tri == c.modules
    ensures Typed(c.Env(v))
  {
    SolutionTwoValued(c, v);
    forall s: Symbol ensures TypedAt(c.Env(v), s) {
      assert v(s) == Eval(c, v, s);
    }
    assert v(Yes) == Eval(c, v, Yes) && v(Mod) == Eval(c, v, Mod) && v(No) == Eval(c, v, No);
  }

  // ----- a value set by the user -----

  /** sym_tristate_within_range */
  predicate WithinRange(c: Context, v: Assignment, s: Symbol, val: Tri) {
    var visible, rev := VisibleTri(c, v, s), RevTri(c, v, s);
    && visible != 0 && IsTri(s) && !(EffectiveType(c.modules, s) == Boolean && val == 1)
    && visible > rev && rev <= val <= visible
  }

  /** The context in which the user has set s to val. */
  function SetTo(c: Context, s: Symbol, val: Tri): Context {
    c.(user := c.user[s := Val(val, if s in c.user then c.user[s].text else "")])
  }

  lemma SetElsewhere(c: Context, s: Symbol, val: Tri, v: Assignment, t: Symbol)
    requires t != s
    ensures Eval(SetTo(c, s, val), v, t) == Eval(c, v, t)
  {
    assert t in SetTo(c, s, val).user <==> t in c.user;
  }

  /** Setting a symbol changes nothing that comes before it. */
  lemma {:induction false} SetBelow(c: Context, s: Symbol, val: Tri, p: Pair)
    requires Ranked(c.config, c.modulesSym, p.rank) && p.n <= p.rank(s)
    requires Solves(c, p.v) && Solves(SetTo(c, s, val), p.w)
    ensures p.Agree()
    decreases p.n
  {
    hide Eval, DefBelow;
    SolutionTwoValued(c, p.v);
    SolutionTwoValued(SetTo(c, s, val), p.w);
    if p.n > 0 {
      var q := p.(n := p.n - 1);
      SetBelow(c, s, val, q);
      forall t | p.rank(t) < p.n ensures p.v(t) == p.w(t) {
        if p.rank(t) == q.n {
          EvalSame(c, q, t);
          SetElsewhere(c, s, val, p.w, t);
        }
      }
    }
  }

  /** The value of s itself, once the user has set it to val. */
  lemma SetValue(c: Context, s: Symbol, val: Tri, rank: Rank, v: Assignment, w: Assignment)
    requires Ranked(c.config, c.modulesSym, rank) && Solves(c, v) && Solves(SetTo(c, s, val), w) && IsTri(s)
    ensures var visible, rev := VisibleTri(c, v, s), RevTri(c, v, s);
            w(s).tri == if visible == 0 then v(s).tri
                        else Promote(EffectiveType(c.modules, s) == Boolean, TriOr(TriAnd(val, visible), rev))
  {
    var d := SetTo(c, s, val);
    var p := Pair(rank, rank(s), v, w);
    SetBelow(c, s, val, p);
    SideSame(c, p, s);
    DefaultSame(c, p, Def(c.config, s).props);
    assert v(s) == Eval(c, v, s) && w(s) == Eval(d, w, s);
  }

  /** A value within the range is read back. */
  lemma ReadBack(c: Context, s: Symbol, val: Tri, rank: Rank, v: Assignment, w: Assignment)
    requires Ranked(c.config, c.modulesSym, rank) && Solves(c, v) && Solves(SetTo(c, s, val), w)
    requires WithinRange(c, v, s, val)
    ensures w(s).tri == val
  {
    SetValue(c, s, val, rank, v, w);
  }

  /** Setting the value that a symbol has already is accepted without a look at the
      range. All values stay as they are if and only if the symbol is not visible,
      or the value is within its visibility, or it is what selects the symbol. */
  lemma SetSame(c: Context, s: Symbol, rank: Rank, v: Assignment, w: Assignment)
    requires Ranked(c.config, c.modulesSym, rank) && Solves(c, v) && Solves(SetTo(c, s, v(s).tri), w) && IsTri(s)
    ensures (forall t :: w(t) == v(t)) <==>
            var visible := VisibleTri(c, v, s); visible == 0 || v(s).tri <= visible || v(s).tri == RevTri(c, v, s)
  {
    var d := SetTo(c, s, v(s).tri);
    SetValue(c, s, v(s).tri, rank, v, w);
    assert v(s) == Eval(c, v, s) && w(s) == Eval(d, w, s);
    if w(s) == v(s) {
      hide Eval;
      var p := Pair(rank, rank(s), v, w);
      SetBelow(c, s, v(s).tri, p);
      EvalSame(d, p, s);
      forall t ensures v(t) == Eval(d, v, t) {
        if t != s { SetElsewhere(c, s, v(s).tri, v, t); }
      }
      Unique(d, rank, v, w);
    }
  }
}
