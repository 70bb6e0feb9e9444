/** symbol.c and zconf.y: two inputs on which the code falls short of what it is
    for. */
module SymFaults {
  import opened Kconfig
  import opened Symbols
  import opened SymDeps
  import SymValues

  // ----- a value set again -----

  /** A tristate symbol that is y unless it is set, and whose prompt allows m. */
  function Capped(s: Symbol): Config {
    map[s := Definition([Prompt(Some(Sym(Mod))), Default(None, Sym(Yes))], None, None)]
  }

  function RankOf(s: Symbol): SymValues.Rank { t => if t == s then 1 else 0 }

  /** It is y. Once the user sets it to y, it is m; but as it is y already, nothing
      is calculated again, and it stays y. */
  lemma SetAgainStale(c: SymValues.Context, s: Symbol)
    requires s.Type() == Tristate && c.config == Capped(s) && c.modules == 2 && s !in c.user
    ensures var d := SymValues.SetTo(c, s, 2);
      var v, w := SymValues.Solution(c, RankOf(s)), SymValues.Solution(d, RankOf(s));
      SymValues.Solves(c, v) && SymValues.Solves(d, w) && v(s).tri == 2 && w(s).tri == 1
  {
    var rank, d := RankOf(s), SymValues.SetTo(c, s, 2);
    CappedRanked(s, c.modulesSym);
    SymValues.SolutionSolves(c, rank);
    SymValues.SolutionSolves(d, rank);
    hide SymValues.Solution;
    CappedValue(c, s, SymValues.Solution(c, rank));
    CappedSet(d, s, SymValues.Solution(d, rank));
  }

  lemma CappedRanked(s: Symbol, m: Symbol)
    requires s.Type() == Tristate
    ensures SymValues.Ranked(Capped(s), m, RankOf(s))
  {
    forall t: Symbol
      ensures SymValues.DefBelow(RankOf(s), m, RankOf(s)(t), Def(Capped(s), t))
    {
    }
  }

  lemma CappedValue(c: SymValues.Context, s: Symbol, v: SymValues.Assignment)
    requires s.Type() == Tristate && c.config == Capped(s) && c.modules == 2 && s !in c.user && SymValues.Solves(c, v)
    ensures v(s).tri == 2
  {
    Constants(c, v);
    assert v(s) == SymValues.Eval(c, v, s);
    assert SymValues.First(c.Env(v), Capped(s)[s].props, true, 1) == 1;
    assert SymValues.First(c.Env(v), Capped(s)[s].props, true, 0) == 1;
  }

  lemma CappedSet(c: SymValues.Context, s: Symbol, v: SymValues.Assignment)
    requires s.Type() == Tristate && c.config == Capped(s) && c.modules == 2 && s in c.user && c.user[s].tri == 2
    requires SymValues.Solves(c, v)
    ensures v(s).tri == 1
  {
    Constants(c, v);
    assert v(s) == SymValues.Eval(c, v, s);
    var props := Capped(s)[s].props;
    assert SymValues.PromptTri(c.Env(v), props, 1) == 1;
    assert SymValues.PromptTri(c.Env(v), props, 2) == 1;
  }

  lemma Constants(c: SymValues.Context, v: SymValues.Assignment)
    requires SymValues.Solves(c, v)
    ensures v(Yes).tri == 2 && v(Mod).tri == 1
  {
    assert v(Yes) == SymValues.Eval(c, v, Yes) && v(Mod) == SymValues.Eval(c, v, Mod);
  }

  // ----- a recursive dependency -----

  /** Each of two symbols can be asked for where the other is set. */
  function Mutual(a: Symbol, b: Symbol): Config {
    map[a := Definition([Prompt(Some(Sym(b)))], None, None), b := Definition([Prompt(Some(Sym(a)))], None, None)]
  }

  lemma MutualCyclic(a: Symbol, b: Symbol)
    requires a != b
    ensures Cyclic(Mutual(a, b))
  {
    var fs := [Frame(a, Visible(0)), Frame(b, Visible(0))];
    assert Part(Mutual(a, b), fs[0]) == [b] && Part(Mutual(a, b), fs[1]) == [a];
    assert Cycle(Mutual(a, b), fs);
  }

  lemma MutualClosed(a: Symbol, b: Symbol)
    requires a != b
    ensures Closed(Mutual(a, b), Table([a, b]))
  {
    var c := Mutual(a, b);
    forall s, t | s in Table([a, b]) && Edge(c, s, t)
      ensures t in Table([a, b])
    {
      var via :| t in Part(c, Frame(s, via));
      assert t == a || t == b;
      assert a in [a, b] && b in [a, b];
    }
  }

  /** The recursion is printed, but the loop that calls sym_check_deps counts no
      error, and the program goes on. */
  method CheckMutual(a: Symbol, b: Symbol) returns (reports: seq<seq<Frame>>, errors: nat)
    requires a != b
    ensures reports != [] && (forall r :: r in reports ==> Cycle(Mutual(a, b), r)) && errors == 0
  {
    MutualCyclic(a, b);
    MutualClosed(a, b);
    ghost var order;
    reports, errors, order := CheckAll(Mutual(a, b), [a, b]);
  }
}
