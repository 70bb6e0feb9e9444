/** symbol.c: what the search for recursive dependencies (sym_check_deps) means for
    the evaluator (sym_calc_value). */
module SymOrder {
  import opened Kconfig
  import opened Symbols
  import opened SymDeps
  import opened SymValues

  /** The symbols whose values the value of e is calculated from; to compare a
      symbol that may be m, the modules symbol is looked at as well. */
  function Looks(m: Symbol, e: Expr): seq<Symbol> {
    match e
    case Sym(s) => [s]
    case Equal(l, r) => LooksTwo(m, l, r)
    case Unequal(l, r) => LooksTwo(m, l, r)
    case Not(a) => Looks(m, a)
    case Bin(_, a, b) => Looks(m, a) + Looks(m, b)
  }

  function LooksTwo(m: Symbol, l: Symbol, r: Symbol): seq<Symbol> {
    if l.Type() == Tristate || r.Type() == Tristate then [l, r, m] else [l, r]
  }

  function OptLooks(m: Symbol, e: Option<Expr>): seq<Symbol> {
    if e.None? then [] else Looks(m, e.value)
  }

  function PropLooks(m: Symbol, p: Property): seq<Symbol> {
    match p
    case Prompt(visible) => OptLooks(m, visible)
    case Default(visible, e) => OptLooks(m, visible) + Looks(m, e)
    case Range(visible, lo, hi) => OptLooks(m, visible) + [lo, hi]
    case _ => []
  }

  /** The evaluator needs t to calculate s. */
  ghost predicate Needs(c: Config, m: Symbol, s: Symbol, t: Symbol) {
    var d := Def(c, s);
    t in OptLooks(m, d.dirDep) || t in OptLooks(m, d.revDep) || exists p :: p in d.props && t in PropLooks(m, p)
  }

  /** The check follows everything that the evaluator needs, of the symbols about which the
      configuration says anything. */
  ghost predicate Covered(c: Config, m: Symbol) {
    forall s, t :: Needs(c, m, s, t) && t in c ==> Edge(c, s, t)
  }

  /** Where a symbol is first in an order. */
  function Position(order: seq<Symbol>, s: Symbol): (k: nat)
    ensures k <= |order| && (k < |order| ==> order[k] == s)
    ensures s in order ==> k < |order|
    ensures s !in order[..k]
  {
    if order == [] || order[0] == s then 0
    else
      assert order == [order[0]] + order[1..];
      var k := Position(order[1..], s);
      assert order[..k + 1] == [order[0]] + order[1..][..k];
      k + 1
  }

  lemma {:induction false} LooksBelow(rank: Rank, m: Symbol, n: nat, e: Expr)
    requires forall t :: t in Looks(m, e) ==> rank(t) < n
    ensures Below(rank, m, n, e)
  {
    match e
    case Sym(s) => assert Looks(m, e)[0] == s;
    case Equal(l, r) => TwoBelow(rank, m, n, l, r);
    case Unequal(l, r) => TwoBelow(rank, m, n, l, r);
    case Not(a) => LooksBelow(rank, m, n, a);
    case Bin(_, a, b) =>
      assert forall t :: t in Looks(m, a) || t in Looks(m, b) ==> t in Looks(m, e);
      LooksBelow(rank, m, n, a);
      LooksBelow(rank, m, n, b);
  }

  lemma TwoBelow(rank: Rank, m: Symbol, n: nat, l: Symbol, r: Symbol)
    requires forall t :: t in LooksTwo(m, l, r) ==> rank(t) < n
    ensures ComparedBelow(rank, m, n, l) && ComparedBelow(rank, m, n, r)
  {
    var looks := LooksTwo(m, l, r);
    assert looks[0] == l && looks[1] == r && (|looks| == 3 ==> looks[2] == m);
  }

  lemma OptLooksBelow(rank: Rank, m: Symbol, n: nat, e: Option<Expr>)
    requires forall t :: t in OptLooks(m, e) ==> rank(t) < n
    ensures OptBelow(rank, m, n, e)
  {
    if e.Some? { LooksBelow(rank, m, n, e.value); }
  }

  lemma PropLooksBelow(rank: Rank, m: Symbol, n: nat, p: Property)
    requires forall t :: t in PropLooks(m, p) ==> rank(t) < n
    ensures PropBelow(rank, m, n, p)
  {
    match p
    case Prompt(visible) => OptLooksBelow(rank, m, n, visible);
    case Default(visible, e) =>
      assert forall t :: t in OptLooks(m, visible) || t in Looks(m, e) ==> t in PropLooks(m, p);
      OptLooksBelow(rank, m, n, visible);
      LooksBelow(rank, m, n, e);
    case Range(visible, lo, hi) =>
      assert lo in [lo, hi] && hi in [lo, hi];
      assert forall t :: t in OptLooks(m, visible) || t in [lo, hi] ==> t in PropLooks(m, p);
      OptLooksBelow(rank, m, n, visible);
    case _ =>
  }

  /** Symbols about which the configuration says nothing come first, and the others in
      the order in which they were finished. */
  function RankIn(c: Config, order: seq<Symbol>): Rank {
    s => if s in c then 1 + Position(order, s) else 0
  }

  /** If the check of all symbols reports nothing, and it follows what the evaluator
      needs, then the order in which it finished the symbols is one in which they
      can be evaluated. */
  lemma CheckedRanked(c: Config, m: Symbol, table: seq<Symbol>, order: seq<Symbol>)
    requires forall s :: s in c ==> s in table
    requires Ordered(c, order) && AllIn(table, order) && Covered(c, m)
    ensures Ranked(c, m, RankIn(c, order))
  {
    var rank := RankIn(c, order);
    forall s ensures DefBelow(rank, m, rank(s), Def(c, s)) {
      if s in c {
        NeedsBelow(c, m, order, s);
      }
    }
  }

  lemma NeedsBelow(c: Config, m: Symbol, order: seq<Symbol>, s: Symbol)
    requires Ordered(c, order) && s in order && s in c && Covered(c, m)
    ensures DefBelow(RankIn(c, order), m, RankIn(c, order)(s), Def(c, s))
  {
    var rank := RankIn(c, order);
    var n, k := rank(s), Position(order, s);
    forall t | Needs(c, m, s, t) ensures rank(t) < n {
      if t in c { assert Edge(c, order[k], t); }
    }
    var d := Def(c, s);
    OptLooksBelow(rank, m, n, d.dirDep);
    OptLooksBelow(rank, m, n, d.revDep);
    forall p | p in d.props ensures PropBelow(rank, m, n, p) {
      PropLooksBelow(rank, m, n, p);
    }
  }

  // ----- when the check follows what the evaluator needs -----

  /** What the check follows from a symbol. */
  function Mentions(d: Definition): seq<Symbol> { OptSyms(d.revDep) + PropsMention(d.props) }

  function PropsMention(props: seq<Property>): seq<Symbol> {
    if props == [] then [] else PropsMention(props[..|props| - 1]) + PropMentions(props[|props| - 1])
  }

  function PropMentions(p: Property): seq<Symbol> {
    (if p.Select? then [] else OptSyms(p.visible)) + if p.Default? then Syms(p.e) else []
  }

  /** A symbol that may be m is compared. */
  predicate Compares(e: Expr) {
    match e
    case Sym(_) => false
    case Equal(l, r) => l.Type() == Tristate || r.Type() == Tristate
    case Unequal(l, r) => l.Type() == Tristate || r.Type() == Tristate
    case Not(a) => Compares(a)
    case Bin(_, a, b) => Compares(a) || Compares(b)
  }

  predicate OptCompares(e: Option<Expr>) { e.Some? && Compares(e.value) }

  predicate PropCompares(p: Property) {
    match p
    case Prompt(visible) => OptCompares(visible)
    case Default(visible, e) => OptCompares(visible) || Compares(e)
    case Range(visible, _, _) => OptCompares(visible)
    case _ => false
  }

  /** For one symbol: of the symbols of the configuration, those of its dependencies and the
      bounds of its ranges are mentioned elsewhere too, and so is the modules symbol if a
      tristate symbol is compared. */
  ghost predicate Followed(c: Config, m: Symbol, d: Definition) {
    && (forall t :: t in OptSyms(d.dirDep) && t in c ==> t in Mentions(d))
    && (forall p :: p in d.props && p.Range? ==>
          (p.lo in c ==> p.lo in Mentions(d)) && (p.hi in c ==> p.hi in Mentions(d)))
    && (OptCompares(d.dirDep) || OptCompares(d.revDep) || (exists p :: p in d.props && PropCompares(p)) ==>
          m in c ==> m in Mentions(d))
  }

  lemma {:induction false} InProps(props: seq<Property>, t: Symbol)
    ensures t in PropsMention(props) <==>
            exists i: nat :: i < |props| && t in PropMentions(props[i])
  {
    hide PropMentions;
    if props != [] {
      var n := |props| - 1;
      InProps(props[..n], t);
      if t in PropsMention(props[..n]) {
        var i: nat :| i < n && t in PropMentions(props[..n][i]);
        assert t in PropMentions(props[i]);
      }
      if i: nat :| i < |props| && t in PropMentions(props[i]) {
        if i < n { assert t in PropMentions(props[..n][i]); }
      }
    }
  }

  /** What a symbol mentions is what the check follows. */
  lemma EdgeMentions(c: Config, s: Symbol, t: Symbol)
    ensures Edge(c, s, t) <==> t in Mentions(Def(c, s))
  {
    var d := Def(c, s);
    InProps(d.props, t);
    if Edge(c, s, t) {
      var via :| t in Part(c, Frame(s, via));
      if via.Visible? || via.Value? { assert t in PropMentions(d.props[via.i]); }
    }
    if t in OptSyms(d.revDep) {
      assert t in Part(c, Frame(s, Selected));
    } else if t in PropsMention(d.props) {
      var i: nat :| i < |d.props| && t in PropMentions(d.props[i]);
      assert t in Part(c, Frame(s, Visible(i))) || t in Part(c, Frame(s, Value(i)));
    }
  }

  /** The evaluator looks at the symbols of an expression, and at the modules symbol if a
      tristate symbol is compared. */
  lemma {:induction false} LooksAre(m: Symbol, e: Expr, t: Symbol)
    ensures t in Looks(m, e) <==> t in Syms(e) || (t == m && Compares(e))
  {
    match e
    case Not(a) => LooksAre(m, a, t);
    case Bin(_, a, b) =>
      LooksAre(m, a, t);
      LooksAre(m, b, t);
    case _ =>
  }

  lemma OptLooksAre(m: Symbol, e: Option<Expr>, t: Symbol)
    ensures t in OptLooks(m, e) <==> t in OptSyms(e) || (t == m && OptCompares(e))
  {
    if e.Some? { LooksAre(m, e.value, t); }
  }

  lemma PropLooksAre(m: Symbol, p: Property, t: Symbol)
    ensures t in PropLooks(m, p) <==>
            || (p.Range? && (t == p.lo || t == p.hi)) || (t == m && PropCompares(p))
            || (!p.Select? && !p.Other? && t in OptSyms(p.visible)) || (p.Default? && t in Syms(p.e))
  {
    if !p.Select? && !p.Other? { OptLooksAre(m, p.visible, t); }
    if p.Default? { LooksAre(m, p.e, t); }
  }

  /** The condition that makes the check and the evaluator fit: it can be read off the
      properties of each symbol. */
  lemma CoveredExactly(c: Config, m: Symbol)
    ensures Covered(c, m) <==> forall s :: s in c ==> Followed(c, m, c[s])
  {
    hide Edge, Mentions;
    if forall s :: s in c ==> Followed(c, m, c[s]) {
      forall s, t | Needs(c, m, s, t) && t in c
        ensures Edge(c, s, t)
      {
        EdgeMentions(c, s, t);
        if s in c { NeedsMentioned(c, m, s, t); }
      }
    }
    if Covered(c, m) {
      forall s | s in c
        ensures Followed(c, m, c[s])
      {
        CoveredFollowed(c, m, s);
      }
    }
  }

  lemma NeedsMentioned(c: Config, m: Symbol, s: Symbol, t: Symbol)
    requires s in c && Followed(c, m, c[s]) && Needs(c, m, s, t) && t in c
    ensures t in Mentions(c[s])
  {
    var d := c[s];
    OptLooksAre(m, d.dirDep, t);
    OptLooksAre(m, d.revDep, t);
    InProps(d.props, t);
    if p :| p in d.props && t in PropLooks(m, p) {
      PropLooksAre(m, p, t);
      var i: nat :| i < |d.props| && d.props[i] == p;
      assert t in PropMentions(d.props[i]) ==> t in Mentions(d);
    }
  }

  lemma CoveredFollowed(c: Config, m: Symbol, s: Symbol)
    requires s in c && Covered(c, m)
    ensures Followed(c, m, c[s])
  {
    hide Edge, Mentions, Looks, OptLooks, PropLooks;
    var d := c[s];
    forall t | t in c && Needs(c, m, s, t)
      ensures t in Mentions(d)
    {
      EdgeMentions(c, s, t);
    }
    forall t | t in OptSyms(d.dirDep) && t in c
      ensures t in Mentions(d)
    {
      OptLooksAre(m, d.dirDep, t);
    }
    OptLooksAre(m, d.dirDep, m);
    OptLooksAre(m, d.revDep, m);
    forall p | p in d.props
      ensures PropCompares(p) ==> m in PropLooks(m, p)
      ensures p.Range? ==> p.lo in PropLooks(m, p) && p.hi in PropLooks(m, p)
    {
      PropLooksAre(m, p, m);
      if p.Range? {
        PropLooksAre(m, p, p.lo);
        PropLooksAre(m, p, p.hi);
      }
    }
  }

  /** One symbol that depends on another, and a number between constants. */
  lemma CoveredExample(m: Symbol)
    ensures var a, b, n := Var("A", Boolean), Var("B", Tristate), Var("N", Int);
            var c: Config := map[a := Definition([Prompt(None)], None, None),
                                 b := Definition([Prompt(Some(Sym(a))), Default(None, Sym(Yes))], Some(Sym(a)), None),
                                 n := Definition([Range(None, Constant("0"), Constant("9"))], None, None)];
            Covered(c, m)
  {
    var a, b, n := Var("A", Boolean), Var("B", Tristate), Var("N", Int);
    hide Mentions, Covered;
    var d := Definition([Prompt(Some(Sym(a))), Default(None, Sym(Yes))], Some(Sym(a)), None);
    var c: Config := map[a := Definition([Prompt(None)], None, None), b := d,
                         n := Definition([Range(None, Constant("0"), Constant("9"))], None, None)];
    MentionsPrompt(d, a);
    forall s | s in c
      ensures Followed(c, m, c[s])
    {
    }
    CoveredExactly(c, m);
  }

  lemma MentionsPrompt(d: Definition, a: Symbol)
    requires |d.props| > 0 && d.props[0] == Prompt(Some(Sym(a)))
    ensures a in Mentions(d)
  {
    InProps(d.props, a);
    assert PropMentions(d.props[0])[0] == a;
  }

  /** The condition is needed: the check does not follow the bounds of ranges. An
      int symbol that is its own bound passes, and no order of evaluation exists. */
  lemma RangeOfItself(m: Symbol)
    ensures var a := Var("A", Int);
            var c: Config := map[a := Definition([Range(None, a, a)], None, None)];
            !Cyclic(c) && !Covered(c, m) && forall rank :: !Ranked(c, m, rank)
  {
    var a := Var("A", Int);
    var d := Definition([Range(None, a, a)], None, None);
    var c: Config := map[a := d];
    forall s, via ensures Part(c, Frame(s, via)) == [] {
    }
    assert !Cyclic(c);
    assert d.props[0] in d.props && PropLooks(m, d.props[0])[0] == a;
    assert Needs(c, m, a, a) && !Edge(c, a, a);
    forall rank ensures !Ranked(c, m, rank) {
      assert !PropBelow(rank, m, rank(a), d.props[0]);
      assert !DefBelow(rank, m, rank(a), Def(c, a));
    }
  }
}
