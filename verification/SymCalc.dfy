/** symbol.c: the evaluator (sym_calc_value), which remembers the values it has
    calculated, and the setting of a value (sym_set_tristate_value). */
module SymCalc {
  import opened Kconfig
  import opened Symbols
  import opened SymValues

  /** The fields of struct symbol that the evaluator writes, without the flags for
      the user interface. */
  datatype State = State(curr: Val, visible: Tri, dirDep: Tri, revDep: Tri, write: bool)

  const CLEARED := State(Val(0, ""), 0, 0, 0, false)

  /** A symbol that is done has the values of the assignment. */
  ghost predicate Right(c: Context, v: Assignment, s: Symbol, st: State) {
    && st.curr == v(s)
    && (IsTri(s) || IsText(s) ==>
          && st.visible == VisibleTri(c, v, s) && st.dirDep == DirTri(c, v, s) && st.revDep == RevTri(c, v, s)
          && (st.write <==> Written(c, v, s)))
  }

  lemma EvalTyped(c: Context, v: Assignment, s: Symbol)
    requires Solves(c, v) && (IsTri(s) || IsText(s))
    ensures v(s) == if IsTri(s) then Val(TriOf(c, v, s), "n") else Val(0, InRange(c, v, s, TextOf(c, v, s)))
  {
    assert v(s) == Eval(c, v, s);
  }

  lemma Specials(c: Context, v: Assignment)
    requires Solves(c, v)
    ensures v(Yes) == Val(2, "y") && v(Mod) == Val(1, "m") && v(No) == Val(0, "n")
  {
    assert v(Yes) == Eval(c, v, Yes) && v(Mod) == Eval(c, v, Mod) && v(No) == Eval(c, v, No);
  }

  /** The special symbols as they are declared. */
  function Initial(): map<Symbol, State> {
    map[Yes := CLEARED.(curr := Val(2, "y")), Mod := CLEARED.(curr := Val(1, "m")), No := CLEARED.(curr := Val(0, "n"))]
  }

  lemma InitialRight(c: Context, v: Assignment)
    requires Solves(c, v)
    ensures Initial().Keys == {Yes, Mod, No}
    ensures Right(c, v, Yes, Initial()[Yes]) && Right(c, v, Mod, Initial()[Mod]) && Right(c, v, No, Initial()[No])
  {
    Specials(c, v);
  }

  lemma PlainRight(c: Context, v: Assignment, s: Symbol, st: State)
    requires Solves(c, v) && s !in {Yes, Mod, No} && !IsTri(s) && !IsText(s)
    requires st.curr == Val(0, if s.Var? then s.name else s.text)
    ensures Right(c, v, s, st)
  {
    assert v(s) == Eval(c, v, s);
  }

  lemma CurrRight(c: Context, v: Assignment, s: Symbol, st: State)
    requires Right(c, v, s, st.(write := Written(c, v, s)))
    ensures st.curr == v(s)
  {
  }

  lemma WriteRight(c: Context, v: Assignment, s: Symbol, before: State, st: State)
    requires Right(c, v, s, before.(write := Written(c, v, s))) && st == before.(write := st.write)
    requires if s in c.auto then !st.write else st.write == before.write && (before.write <==> Written(c, v, s))
    ensures Right(c, v, s, st)
  {
  }

  class Evaluator {
    const config: Config
    const modulesSym: Symbol
    const auto: set<Symbol>
    const lib: Lib
    /** The values of the symbols with SYMBOL_DEF_USER. */
    var user: map<Symbol, Val>
    var modulesVal: Tri
    /** The symbols with SYMBOL_VALID. */
    var valid: set<Symbol>
    var state: map<Symbol, State>

    /** An order of evaluation, the solution of the equations, and the valid symbols
        that are not still being calculated. */
    ghost const rank: Rank
    ghost var v: Assignment
    ghost var done: set<Symbol>

    /** modules_val is the value that the modules symbol has with modules_val as it is. */
    constructor (c: Context, ghost rank: Rank)
      requires Ranked(c.config, c.modulesSym, rank) && Solution(c, rank)(c.modulesSym).tri == c.modules
      ensures Valid() && Ctx() == c && this.rank == rank && Idle()
    {
      config, modulesSym, auto, lib := c.config, c.modulesSym, c.auto, c.lib;
      user, modulesVal, this.rank := c.user, c.modules, rank;
      state := Initial();
      valid := {Yes, Mod, No};
      v, done := Solution(c, rank), {Yes, Mod, No};
      new;
      hide Right, Solves, Ranked, Solution, Initial;
      SolutionSolves(c, rank);
      InitialRight(c, v);
    }

    function At(s: Symbol): State
      reads this
    {
      if s in state then state[s] else CLEARED
    }

    ghost function Ctx(): Context
      reads this
    {
      Context(config, user, modulesVal, modulesSym, auto, lib)
    }

    ghost predicate Valid()
      reads this
    {
      && Ranked(config, modulesSym, rank) && Solves(Ctx(), v) && v(modulesSym).tri == modulesVal
      && {Yes, Mod, No} <= done <= valid
      && forall s :: s in done ==> Right(Ctx(), v, s, At(s))
    }

    /** Nothing is being calculated. */
    ghost predicate Idle()
      reads this
    {
      valid == done
    }

    /** Only symbols from rank n on are still being calculated. */
    ghost predicate Open(n: nat)
      reads this
    {
      forall s :: s in valid && s !in done ==> rank(s) >= n
    }

    /** What an evaluation does to the rest: symbols that are done stay done, and those
        being calculated, other than busy, are not touched. */
    twostate predicate Goes(busy: set<Symbol>)
      reads this
    {
      && user == old(user) && modulesVal == old(modulesVal) && v == old(v)
      && old(done) <= done && old(valid) <= valid
      && (forall s :: s in valid && s !in done <==> s in old(valid) && s !in old(done))
      && forall s :: s in old(valid) && s !in old(done) && s !in busy ==> At(s) == old(At(s))
    }

    /** A symbol that is being calculated changes. */
    method Set(s: Symbol, st: State)
      requires Valid() && s !in done
      modifies this`state
      ensures Valid() && Goes({s}) && At(s) == st
    {
      state := state[s := st];
      assert forall t :: t in done ==> At(t) == old(At(t));
    }

    /** expr_calc_value */
    method ExprCalc(e: Expr, ghost n: nat) returns (r: Tri)
      requires Valid() && Open(n) && Below(rank, modulesSym, n, e)
      modifies this
      ensures Valid() && Open(n) && Goes({}) && r == Value(EnvOf(modulesSym, v), e)
      decreases n, 1, Size(e)
    {
      match e
      case Sym(s) =>
        CalcValue(s);
        r := At(s).curr.tri;
      case Bin(op, a, b) =>
        var x := ExprCalc(a, n);
        var y := ExprCalc(b, n);
        r := op.Apply(x, y);
      case Not(a) =>
        var x := ExprCalc(a, n);
        r := TriNot(x);
      case Equal(l, r') =>
        var same := Compare(l, r', n);
        r := Truth(same);
      case Unequal(l, r') =>
        var same := Compare(l, r', n);
        r := Truth(!same);
    }

    method Compare(l: Symbol, r: Symbol, ghost n: nat) returns (same: bool)
      requires Valid() && Open(n) && ComparedBelow(rank, modulesSym, n, l) && ComparedBelow(rank, modulesSym, n, r)
      modifies this
      ensures Valid() && Open(n) && Goes({}) && same == (Text(modulesSym, v, l) == Text(modulesSym, v, r))
      decreases n, 1, 0
    {
      CalcValue(l);
      CalcValue(r);
      var x := GetString(l, n);
      var y := GetString(r, n);
      same := x == y;
    }

    /** sym_get_string_value */
    method GetString(s: Symbol, ghost n: nat) returns (r: string)
      requires Valid() && Open(n) && ComparedBelow(rank, modulesSym, n, s) && s in done
      modifies this
      ensures Valid() && Open(n) && Goes({}) && r == Text(modulesSym, v, s)
      decreases n, 0
    {
      if IsTri(s) {
        if At(s).curr.tri == 1 {
          SolutionTwoValued(Ctx(), v);
          CalcValue(modulesSym);
          r := if At(modulesSym).curr.tri == 0 then "n" else "m";
        } else {
          r := TriName(At(s).curr.tri);
        }
      } else {
        r := At(s).curr.text;
      }
    }

    method OptCalc(e: Option<Expr>, ghost n: nat) returns (r: Tri)
      requires Valid() && Open(n) && OptBelow(rank, modulesSym, n, e)
      modifies this
      ensures Valid() && Open(n) && Goes({}) && r == OptValue(EnvOf(modulesSym, v), e)
      decreases n, 2
    {
      r := 2;
      if e.Some? {
        r := ExprCalc(e.value, n);
      }
    }

    /** Being calculated, with everything that comes before available. */
    ghost predicate Busy(s: Symbol)
      reads this
    {
      && Valid() && Open(rank(s)) && s in valid && s !in done && (IsTri(s) || IsText(s))
      && DefBelow(rank, modulesSym, rank(s), Def(config, s))
    }

    /** The prompts in sym_calc_visibility */
    method CalcPrompts(s: Symbol) returns (tri: Tri)
      requires Busy(s)
      modifies this
      ensures Busy(s) && Goes({}) && tri == VisibleTri(Ctx(), v, s)
      decreases rank(s), 4
    {
      hide Right, Solves, Ranked, Below;
      var props := Def(config, s).props;
      tri := 0;
      var i := 0;
      while i < |props|
        invariant 0 <= i <= |props| && Busy(s) && Goes({})
        invariant tri == PromptTri(EnvOf(modulesSym, v), props, i)
      {
        if props[i].Prompt? {
          assert PropBelow(rank, modulesSym, rank(s), props[i]);
          var visible := OptCalc(props[i].visible, rank(s));
          tri := TriOr(tri, visible);
        }
        i := i + 1;
      }
      if tri == 1 && (s.Type() != Tristate || modulesVal == 0) {
        tri := 2;
      }
    }

    method SetVisible(s: Symbol)
      requires Busy(s)
      modifies this
      ensures Busy(s) && Goes({s}) && At(s) == old(At(s)).(visible := VisibleTri(Ctx(), v, s))
      decreases rank(s), 5
    {
      hide Right, Solves, Ranked, DefBelow, VisibleTri;
      var tri := CalcPrompts(s);
      Set(s, At(s).(visible := tri));
    }

    method SetDirDep(s: Symbol)
      requires Busy(s)
      modifies this
      ensures Busy(s) && Goes({s}) && At(s) == old(At(s)).(dirDep := DirTri(Ctx(), v, s))
      decreases rank(s), 5
    {
      hide Right, Solves, Ranked, Below;
      var tri := OptCalc(Def(config, s).dirDep, rank(s));
      if tri == 1 {
        tri := 2;
      }
      Set(s, At(s).(dirDep := tri));
    }

    method SetRevDep(s: Symbol)
      requires Busy(s)
      modifies this
      ensures Busy(s) && Goes({s}) && At(s) == old(At(s)).(revDep := RevTri(Ctx(), v, s))
      decreases rank(s), 5
    {
      hide Right, Solves, Ranked, Below;
      var tri := 0;
      if Def(config, s).revDep.Some? {
        tri := OptCalc(Def(config, s).revDep, rank(s));
      }
      if tri == 1 && EffectiveType(modulesVal, s) == Boolean {
        tri := 2;
      }
      Set(s, At(s).(revDep := tri));
    }

    /** sym_calc_visibility */
    method CalcVisibility(s: Symbol)
      requires Busy(s)
      modifies this
      ensures Busy(s) && Goes({s})
      ensures At(s).visible == VisibleTri(Ctx(), v, s) && At(s).dirDep == DirTri(Ctx(), v, s)
      ensures At(s).revDep == RevTri(Ctx(), v, s)
      ensures At(s).curr == old(At(s)).curr && At(s).write == old(At(s)).write
      decreases rank(s), 6
    {
      hide Right, Solves, Ranked, DefBelow, VisibleTri, DirTri, RevTri;
      SetVisible(s);
      SetDirDep(s);
      SetRevDep(s);
    }

    /** sym_get_default_prop and sym_get_range_prop */
    method FirstProp(s: Symbol, default: bool) returns (k: nat, visible: Tri)
      requires Busy(s)
      modifies this
      ensures Busy(s) && Goes({}) && k == First(EnvOf(modulesSym, v), Def(config, s).props, default, 0)
      ensures k < |Def(config, s).props| ==> visible == OptValue(EnvOf(modulesSym, v), Def(config, s).props[k].visible)
      decreases rank(s), 4
    {
      hide Right, Solves, Ranked, Below;
      var props := Def(config, s).props;
      k, visible := 0, 0;
      while k < |props| && visible == 0
        invariant 0 <= k <= |props| && Busy(s) && Goes({})
        invariant visible == 0 ==>
          First(EnvOf(modulesSym, v), props, default, 0) == First(EnvOf(modulesSym, v), props, default, k)
        invariant visible != 0 ==> k < |props| && Applies(EnvOf(modulesSym, v), props[k], default)
        invariant visible != 0 ==> visible == OptValue(EnvOf(modulesSym, v), props[k].visible)
        invariant visible != 0 ==> First(EnvOf(modulesSym, v), props, default, 0) == k
        decreases |props| - k, if visible == 0 then 1 else 0
      {
        if if default then props[k].Default? else props[k].Range? {
          assert PropBelow(rank, modulesSym, rank(s), props[k]);
          visible := OptCalc(props[k].visible, rank(s));
        }
        if visible == 0 {
          k := k + 1;
        }
      }
    }

    method CalcDefault(s: Symbol) returns (found: bool, r: Tri)
      requires Busy(s)
      modifies this
      ensures Busy(s) && Goes({})
      ensures var props := Def(config, s).props;
              var k := First(EnvOf(modulesSym, v), props, true, 0);
              && found == (k < |props|)
              && r == if found
                then TriAnd(Value(EnvOf(modulesSym, v), props[k].e), OptValue(EnvOf(modulesSym, v), props[k].visible))
                  else 0
      decreases rank(s), 5
    {
      hide Right, Solves, Ranked, Below;
      var k, visible := FirstProp(s, true);
      found, r := k < |Def(config, s).props|, 0;
      if found {
        assert PropBelow(rank, modulesSym, rank(s), Def(config, s).props[k]);
        r := ExprCalc(Def(config, s).props[k].e, rank(s));
        r := TriAnd(r, visible);
      }
    }

    /** The case for boolean and tristate symbols in sym_calc_value, up to calc_newval */
    method CalcOwn(s: Symbol) returns (r: Tri)
      requires Busy(s) && IsTri(s) && !At(s).write
      requires At(s).visible == VisibleTri(Ctx(), v, s) && At(s).revDep == RevTri(Ctx(), v, s)
      modifies this
      ensures Busy(s) && Goes({s}) && At(s) == old(At(s)).(write := At(s).write)
      ensures s in auto || (At(s).write <==> Written(Ctx(), v, s))
      ensures var props := Def(config, s).props;
              var k := First(EnvOf(modulesSym, v), props, true, 0);
              r == if At(s).visible != 0 && s in user then TriAnd(user[s].tri, At(s).visible)
                   else if k == |props| then 0
                   else TriAnd(Value(EnvOf(modulesSym, v), props[k].e),
                     OptValue(EnvOf(modulesSym, v), props[k].visible))
      decreases rank(s), 6
    {
      hide Right, Solves, Ranked, DefBelow, First, VisibleTri, RevTri;
      if At(s).visible != 0 && s in user {
        Set(s, At(s).(write := true));
        r := TriAnd(user[s].tri, At(s).visible);
      } else {
        var write := At(s).visible != 0 || At(s).revDep != 0;
        var found;
        found, r := CalcDefault(s);
        Set(s, At(s).(write := write || found));
      }
    }

    method CalcTri(s: Symbol) returns (r: Tri)
      requires Busy(s) && IsTri(s) && !At(s).write
      requires At(s).visible == VisibleTri(Ctx(), v, s) && At(s).revDep == RevTri(Ctx(), v, s)
      modifies this
      ensures Busy(s) && Goes({s}) && r == TriOf(Ctx(), v, s)
      ensures At(s) == old(At(s)).(write := At(s).write)
      ensures s in auto || (At(s).write <==> Written(Ctx(), v, s))
      decreases rank(s), 7
    {
      hide Right, Solves, Ranked, DefBelow, First, VisibleTri, RevTri, Written;
      r := CalcOwn(s);
      r := TriOr(r, At(s).revDep);
      if r == 1 && EffectiveType(modulesVal, s) == Boolean {
        r := 2;
      }
    }

    method CalcDefaultText(s: Symbol) returns (found: bool, r: string)
      requires Busy(s)
      modifies this
      ensures Busy(s) && Goes({})
      ensures var props := Def(config, s).props;
              var k := First(EnvOf(modulesSym, v), props, true, 0);
              && found == (k < |props| && props[k].e.Sym?)
              && r == if found then v(props[k].e.sym).text else ""
      decreases rank(s), 5
    {
      hide Solves, Ranked, First, VisibleTri, RevTri;
      var k, _ := FirstProp(s, true);
      found, r := k < |Def(config, s).props| && Def(config, s).props[k].e.Sym?, "";
      if found {
        assert PropBelow(rank, modulesSym, rank(s), Def(config, s).props[k]);
        var ds := Def(config, s).props[k].e.sym;
        CalcValue(ds);
        r := At(ds).curr.text;
      }
    }

    /** The case for int, hex and string symbols */
    method CalcText(s: Symbol) returns (r: string)
      requires Busy(s) && IsText(s) && !At(s).write
      requires At(s).visible == VisibleTri(Ctx(), v, s) && At(s).revDep == RevTri(Ctx(), v, s)
      modifies this
      ensures Busy(s) && Goes({s}) && r == TextOf(Ctx(), v, s)
      ensures At(s) == old(At(s)).(write := At(s).write)
      ensures s in auto || (At(s).write <==> Written(Ctx(), v, s))
      decreases rank(s), 6
    {
      hide Right, Solves, Ranked, DefBelow, First, VisibleTri, RevTri;
      if At(s).visible != 0 && s in user {
        Set(s, At(s).(write := true));
        r := user[s].text;
      } else {
        var write := At(s).visible != 0;
        var found;
        found, r := CalcDefaultText(s);
        Set(s, At(s).(write := write || found));
      }
    }

    /** sym_get_range_val */
    method RangeVal(bound: Symbol, base: int, ghost n: nat) returns (r: int)
      requires Valid() && Open(n) && rank(bound) < n
      modifies this
      ensures Valid() && Open(n) && Goes({}) && r == lib.strtol(v(bound).text, Base(bound, base))
      decreases n, 1
    {
      CalcValue(bound);
      r := lib.strtol(At(bound).curr.text, Base(bound, base));
    }

    /** The bound that a number is outside of, if any. */
    method OutOf(s: Symbol, k: nat) returns (inside: bool, bound: int)
      requires Busy(s) && k < |Def(config, s).props| && Def(config, s).props[k].Range?
      modifies this
      ensures Busy(s) && Goes({})
      ensures var prop := Def(config, s).props[k];
              Clamp(Ctx(), v, s, prop.lo, prop.hi, At(s).curr.text)
              == if inside then At(s).curr.text else if s.Type() == Int then lib.dec(bound) else lib.hex(bound)
      decreases rank(s), 2
    {
      hide Right, Solves, Ranked, Below;
      var prop := Def(config, s).props[k];
      assert PropBelow(rank, modulesSym, rank(s), prop);
      var base := Base(s, 10);
      var number := lib.strtol(At(s).curr.text, base);
      bound := RangeVal(prop.lo, base, rank(s));
      inside := number >= bound;
      if inside {
        bound := RangeVal(prop.hi, base, rank(s));
        inside := number <= bound;
      }
    }

    /** sym_validate_range */
    method ValidateRange(s: Symbol)
      requires Busy(s)
      modifies this
      ensures Busy(s) && Goes({s})
      ensures At(s) == old(At(s)).(curr := At(s).curr)
      ensures At(s).curr == if IsText(s) then old(At(s)).curr.(text := InRange(Ctx(), v, s, old(At(s)).curr.text))
        else old(At(s)).curr
      decreases rank(s), 6
    {
      hide Right, Solves, Ranked, DefBelow, First, Clamp;
      if s.Type() == Int || s.Type() == Hex {
        var k, _ := FirstProp(s, false);
        if k < |Def(config, s).props| {
          var inside, bound := OutOf(s, k);
          if !inside {
            Set(s, At(s).(curr := At(s).curr.(text := if s.Type() == Int then lib.dec(bound) else lib.hex(bound))));
          }
        }
      }
    }

    /** Everything is known but the value. */
    method Prepare(s: Symbol)
      requires Busy(s)
      modifies this
      ensures Busy(s) && Goes({s})
      ensures At(s) == State(if IsTri(s) then Val(0, "n") else Val(0, ""), VisibleTri(Ctx(), v, s), DirTri(Ctx(), v, s),
                             RevTri(Ctx(), v, s), false)
      decreases rank(s), 7
    {
      hide Right, Solves, Ranked, DefBelow, VisibleTri, DirTri, RevTri;
      Set(s, At(s).(write := false));
      CalcVisibility(s);
      Set(s, At(s).(curr := if IsTri(s) then Val(0, "n") else Val(0, "")));
    }

    method Assign(s: Symbol)
      requires Busy(s) && !At(s).write
      requires At(s).visible == VisibleTri(Ctx(), v, s) && At(s).revDep == RevTri(Ctx(), v, s)
      modifies this
      ensures Busy(s) && Goes({s})
      ensures At(s) == old(At(s)).(write := At(s).write, curr := At(s).curr)
      ensures At(s).curr == if IsTri(s) then Val(TriOf(Ctx(), v, s), "n") else Val(0, TextOf(Ctx(), v, s))
      ensures s in auto || (At(s).write <==> Written(Ctx(), v, s))
      decreases rank(s), 8
    {
      hide Right, Solves, Ranked, DefBelow, VisibleTri, RevTri, TriOf, TextOf, Written;
      if IsTri(s) {
        var tri := CalcTri(s);
        Set(s, At(s).(curr := Val(tri, "n")));
      } else {
        var text := CalcText(s);
        Set(s, At(s).(curr := Val(0, text)));
      }
    }

    method CalcTyped(s: Symbol)
      requires Busy(s)
      modifies this
      ensures Busy(s) && Goes({s})
      ensures Right(Ctx(), v, s, At(s).(write := Written(Ctx(), v, s)))
      ensures s in auto || (At(s).write <==> Written(Ctx(), v, s))
      decreases rank(s), 9
    {
      hide Solves, Ranked, DefBelow, VisibleTri, DirTri, RevTri, TriOf, TextOf, InRange, Written;
      EvalTyped(Ctx(), v, s);
      Prepare(s);
      Assign(s);
      ValidateRange(s);
    }

    method CalcFlags(s: Symbol)
      requires Busy(s)
      modifies this
      ensures Busy(s) && Goes({s}) && Right(Ctx(), v, s, At(s))
      decreases rank(s), 10
    {
      hide Right, Solves, Ranked, DefBelow, Written;
      var before := At(s).curr;
      CalcTyped(s);
      CurrRight(Ctx(), v, s, At(s));
      if s == modulesSym && At(s).curr != before {
        modulesVal := At(s).curr.tri;
      }
      ghost var st := At(s);
      if s in auto {
        Set(s, At(s).(write := false));
      }
      WriteRight(Ctx(), v, s, st, At(s));
    }

    /** sym_calc_value. Whatever has been calculated before, and whatever is still
        being calculated, the symbol gets the value of the solution. */
    method CalcValue(s: Symbol)
      requires Valid() && Open(rank(s) + 1)
      modifies this
      ensures Valid() && Goes({}) && s in done
      decreases rank(s), 12
    {
      hide Right, Solves, Ranked, DefBelow;
      if s !in valid {
        Start(s);
        if IsTri(s) || IsText(s) {
          CalcFlags(s);
        } else {
          Set(s, At(s).(curr := Val(0, if s.Var? then s.name else s.text)));
          PlainRight(Ctx(), v, s, At(s));
        }
        Finish(s);
      }
    }

    /** SYMBOL_VALID is set before the value is known. */
    method Start(s: Symbol)
      requires Valid() && Open(rank(s) + 1) && s !in valid
      modifies this`valid
      ensures Valid() && Open(rank(s)) && valid == old(valid) + {s} && s !in done
      ensures IsTri(s) || IsText(s) ==> Busy(s)
    {
      valid := valid + {s};
      assert DefBelow(rank, modulesSym, rank(s), Def(config, s));
    }

    ghost method Finish(s: Symbol)
      requires Valid() && s in valid && Right(Ctx(), v, s, At(s))
      modifies this`done
      ensures Valid() && done == old(done) + {s}
    {
      done := done + {s};
    }

    /** The evaluation of all symbols, in the order of the table. */
    method CalcAll(table: seq<Symbol>)
      requires Valid() && Idle()
      modifies this
      ensures Valid() && Idle() && user == old(user) && v == old(v)
      ensures forall s :: s in table ==> s in valid && At(s).curr == v(s)
    {
      hide Right, Solves, Ranked;
      var i := 0;
      while i < |table|
        invariant 0 <= i <= |table| && Valid() && Idle() && user == old(user) && v == old(v)
        invariant forall k :: 0 <= k < i ==> table[k] in done
      {
        CalcValue(table[i]);
        i := i + 1;
      }
      forall s | s in table ensures At(s).curr == v(s) { DoneRight(s); }
    }

    lemma DoneRight(s: Symbol)
      requires Valid() && s in done
      ensures Right(Ctx(), v, s, At(s)) && At(s).curr == v(s)
    {
    }

    /** sym_clear_all_valid, when the values of the user may have changed but not so
        that the modules symbol changes */
    method ClearAllValid()
      requires Ranked(config, modulesSym, rank)
      requires Solves(Ctx(), v) && v(modulesSym).tri == modulesVal
      requires At(Yes).curr == Val(2, "y") && At(Mod).curr == Val(1, "m") && At(No).curr == Val(0, "n")
      modifies this
      ensures Valid() && Idle() && user == old(user) && modulesVal == old(modulesVal) && v == old(v)
    {
      valid := {Yes, Mod, No};
      done := {Yes, Mod, No};
      Specials(Ctx(), v);
      CalcValue(modulesSym);
    }

    /** sym_tristate_within_range, on the values as they are stored */
    method TristateWithinRange(s: Symbol, val: Tri) returns (inside: bool)
      requires Valid() && s in done
      ensures inside == WithinRange(Ctx(), v, s, val)
    {
      DoneRight(s);
      var kind := EffectiveType(modulesVal, s);
      if At(s).visible == 0 {
        inside := false;
      } else if kind != Boolean && kind != Tristate {
        inside := false;
      } else if kind == Boolean && val == 1 {
        inside := false;
      } else if At(s).visible <= At(s).revDep {
        inside := false;
      } else {
        inside := val >= At(s).revDep && val <= At(s).visible;
      }
    }

    /** sym_set_tristate_value, for a symbol that the modules symbol does not depend
        on: some order of evaluation has it after the modules symbol. A new value is
        accepted if and only if it is within the range, and is the value of the
        symbol from then on. The value that the symbol has is always accepted, and
        nothing is calculated again; it stays right under the condition of SetSame. */
    method SetTristateValue(s: Symbol, val: Tri, ghost after: Rank) returns (accepted: bool)
      requires Valid() && Idle() && s in done && IsTri(s)
      requires Ranked(config, modulesSym, after) && after(modulesSym) < after(s)
      modifies this
      ensures accepted <==> val == old(At(s)).curr.tri || old(WithinRange(Ctx(), v, s, val))
      ensures !accepted ==> user == old(user) && state == old(state) && valid == old(valid) && Valid()
      ensures accepted ==> Ctx() == old(SetTo(Ctx(), s, val))
      ensures accepted && val != old(At(s)).curr.tri ==> Valid() && Idle() && v(s).tri == val
      ensures accepted && val == old(At(s)).curr.tri ==>
                state == old(state) && valid == old(valid) && v == old(v)
                && (Valid() <==> old(At(s).visible == 0 || val <= At(s).visible || val == At(s).revDep))
    {
      hide Right, Solves, Ranked, WithinRange, VisibleTri, RevTri;
      DoneRight(s);
      var oldval := At(s).curr.tri;
      accepted := true;
      if oldval != val {
        accepted := TristateWithinRange(s, val);
      }
      if accepted {
        if oldval != val {
          SetNew(s, val, after);
        } else {
          SetAgain(s);
        }
      }
    }

    method SetNew(s: Symbol, val: Tri, ghost after: Rank)
      requires Valid() && Idle() && WithinRange(Ctx(), v, s, val)
      requires Ranked(config, modulesSym, after) && after(modulesSym) < after(s)
      modifies this
      ensures Ctx() == old(SetTo(Ctx(), s, val)) && Valid() && Idle() && v(s).tri == val
    {
      hide WithinRange, VisibleTri, RevTri, DefBelow, Eval;
      ghost var c, was := Ctx(), v;
      Specials(c, v);
      user := user[s := Val(val, if s in user then user[s].text else "")];
      assert Ctx() == SetTo(c, s, val);
      v := Solution(Ctx(), rank);
      StillSettled(c, s, val, after, rank, was);
      ReadBack(c, s, val, rank, was, v);
      ClearAllValid();
    }

    method SetAgain(s: Symbol)
      requires Valid() && Idle() && s in done && IsTri(s)
      modifies this`user
      ensures Ctx() == old(SetTo(Ctx(), s, At(s).curr.tri))
      ensures Valid() <==> At(s).visible == 0 || At(s).curr.tri <= At(s).visible || At(s).curr.tri == At(s).revDep
    {
      hide DefBelow, Eval;
      ghost var c := Ctx();
      user := user[s := Val(At(s).curr.tri, if s in user then user[s].text else "")];
      assert Ctx() == SetTo(c, s, v(s).tri);
      SameSettled(c, s, rank, v);
      forall t | t in done ensures Right(Ctx(), v, t, At(t)) { assert Right(c, v, t, At(t)); }
    }
  }

  /** The modules symbol keeps its value, so that the evaluator can go on. */
  lemma StillSettled(c: Context, s: Symbol, val: Tri, after: Rank, rank: Rank, v: Assignment)
    requires Ranked(c.config, c.modulesSym, after) && after(c.modulesSym) < after(s)
    requires Ranked(c.config, c.modulesSym, rank) && Solves(c, v)
    ensures var w := Solution(SetTo(c, s, val), rank);
            Solves(SetTo(c, s, val), w) && w(c.modulesSym) == v(c.modulesSym)
  {
    SolutionSolves(SetTo(c, s, val), rank);
    SetBelow(c, s, val, Pair(after, after(s), v, Solution(SetTo(c, s, val), rank)));
  }

  /** The old values solve the new equations under the condition of SetSame. */
  lemma SameSettled(c: Context, s: Symbol, rank: Rank, v: Assignment)
    requires Ranked(c.config, c.modulesSym, rank) && Solves(c, v) && IsTri(s)
    ensures Solves(SetTo(c, s, v(s).tri), v) <==>
            var visible := VisibleTri(c, v, s); visible == 0 || v(s).tri <= visible || v(s).tri == RevTri(c, v, s)
  {
    var d := SetTo(c, s, v(s).tri);
    var w := Solution(d, rank);
    SolutionSolves(d, rank);
    SetSame(c, s, rank, v, w);
    if Solves(d, v) {
      Unique(d, rank, v, w);
    } else if forall t :: w(t) == v(t) {
      SolutionTwoValued(c, v);
      SolutionTwoValued(d, w);
      forall t ensures v(t) == Eval(d, v, t) { EvalSame(d, Pair(rank, rank(t), v, w), t); }
    }
  }
}
