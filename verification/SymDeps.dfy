/** symbol.c: the search for recursive dependencies (sym_check_deps). */
module SymDeps {
  import opened Kconfig
  import opened Symbols

  /** The part of a symbol that is being checked: what selects it, the visibility
      of a property, or the value of a default. */
  datatype Via = Selected | Visible(i: nat) | Value(i: nat)

  /** struct dep_stack */
  datatype Frame = Frame(sym: Symbol, via: Via)

  /** The symbols that a part of a symbol mentions. */
  function Part(c: Config, f: Frame): seq<Symbol> {
    var d := Def(c, f.sym);
    match f.via
    case Selected => OptSyms(d.revDep)
    case Visible(i) => if i < |d.props| && !d.props[i].Select? then OptSyms(d.props[i].visible) else []
    case Value(i) => if i < |d.props| && d.props[i].Default? then Syms(d.props[i].e) else []
  }

  /** t is mentioned in a part of s that the check follows. */
  ghost predicate Edge(c: Config, s: Symbol, t: Symbol) {
    exists via :: t in Part(c, Frame(s, via))
  }

  /** Each frame mentions the symbol of the next one. */
  ghost predicate Chain(c: Config, fs: seq<Frame>) {
    forall i :: 0 < i < |fs| ==> fs[i].sym in Part(c, fs[i - 1])
  }

  /** What is printed: the symbols, with the part in which each of them mentions
      the next, and the last of them the first. */
  ghost predicate Cycle(c: Config, fs: seq<Frame>) {
    |fs| > 0 && Chain(c, fs) && fs[0].sym in Part(c, fs[|fs| - 1])
  }

  ghost predicate Cyclic(c: Config) {
    exists fs :: Cycle(c, fs)
  }

  /** Each symbol mentions only symbols before it. */
  ghost predicate Ordered(c: Config, order: seq<Symbol>) {
    forall i, t :: 0 <= i < |order| && Edge(c, order[i], t) ==> t in order[..i]
  }

  /** The symbols of the hash table, with every symbol that is mentioned; only
      these, of which there are finitely many, are ever looked at. */
  ghost predicate Closed(c: Config, symbols: set<Symbol>) {
    forall s, t :: s in symbols && Edge(c, s, t) ==> t in symbols
  }

  /** A symbol in an order of this kind is on no cycle. */
  lemma {:induction false} OrderedAcyclic(c: Config, order: seq<Symbol>, fs: seq<Frame>, k: nat)
    requires Ordered(c, order) && Cycle(c, fs)
    requires k < |order| && fs[0].sym == order[k]
    ensures false
    decreases k
  {
    var j := OrderedPath(c, order, fs, |fs| - 1, k);
    assert Edge(c, order[j], fs[0].sym);
    var i :| 0 <= i < j && order[i] == fs[0].sym;
    OrderedAcyclic(c, order, fs, i);
  }

  lemma OrderedMore(c: Config, order: seq<Symbol>, s: Symbol)
    requires Ordered(c, order) && forall t :: Edge(c, s, t) ==> t in order
    ensures Ordered(c, order + [s])
  {
    var more := order + [s];
    forall i, t | 0 <= i < |more| && Edge(c, more[i], t) ensures t in more[..i] {
      if i < |order| {
        assert more[..i] == order[..i];
      } else {
        assert more[..i] == order;
      }
    }
  }

  lemma {:induction false} OrderedPath(c: Config, order: seq<Symbol>, fs: seq<Frame>, n: nat, k: nat) returns (j: nat)
    requires Ordered(c, order) && Chain(c, fs)
    requires n < |fs| && k < |order| && fs[0].sym == order[k]
    ensures j <= k && fs[n].sym == order[j]
  {
    if n == 0 {
      j := k;
    } else {
      var i := OrderedPath(c, order, fs, n - 1, k);
      assert Edge(c, order[i], fs[n].sym) by { assert fs[n - 1] == Frame(order[i], fs[n - 1].via); }
      j :| 0 <= j < i && order[j] == fs[n].sym;
    }
  }

  // ----- what has been finished -----

  ghost predicate Done(c: Config, order: seq<Symbol>, f: Frame) {
    AllIn(Part(c, f), order)
  }

  /** The parts of the properties lo..hi of a symbol are finished. */
  ghost predicate PropsDone(c: Config, order: seq<Symbol>, s: Symbol, lo: nat, hi: nat) {
    forall i: nat :: lo <= i < hi ==> Done(c, order, Frame(s, Visible(i))) && Done(c, order, Frame(s, Value(i)))
  }

  ghost predicate AllIn(ss: seq<Symbol>, order: seq<Symbol>) {
    forall t :: t in ss ==> t in order
  }

  /** The check of a frame may go on to these symbols. */
  ghost predicate MayFollow(c: Config, symbols: set<Symbol>, f: Frame, ss: seq<Symbol>) {
    forall t :: t in ss ==> t in symbols && t in Part(c, f)
  }

  lemma FollowPart(c: Config, symbols: set<Symbol>, f: Frame)
    requires Closed(c, symbols) && f.sym in symbols
    ensures MayFollow(c, symbols, f, Part(c, f))
  {
    forall t | t in Part(c, f) ensures t in symbols {
      assert f == Frame(f.sym, f.via) && Edge(c, f.sym, t);
    }
  }

  lemma FollowBoth(c: Config, symbols: set<Symbol>, f: Frame, a: seq<Symbol>, b: seq<Symbol>)
    requires MayFollow(c, symbols, f, a + b)
    ensures MayFollow(c, symbols, f, a) && MayFollow(c, symbols, f, b)
  {
    forall t | t in a || t in b ensures t in symbols && t in Part(c, f) {
      assert t in a + b;
    }
  }

  lemma InBoth(a: seq<Symbol>, b: seq<Symbol>, before: seq<Symbol>, order: seq<Symbol>)
    requires before <= order
    ensures AllIn(a, before) && AllIn(b, order) ==> AllIn(a + b, order)
  {
    if AllIn(a, before) && AllIn(b, order) {
      forall t | t in a + b ensures t in order {
        if t in a {
          var i :| 0 <= i < |before| && before[i] == t;
          assert order[i] == t;
        }
      }
    }
  }

  lemma NoSyms(order: seq<Symbol>)
    ensures AllIn([], order)
  {
  }

  lemma PartShape(c: Config, s: Symbol, i: nat)
    requires i < |Def(c, s).props|
    ensures var p := Def(c, s).props[i];
            && (if p.Select? then Done(c, [], Frame(s, Visible(i)))
              else Part(c, Frame(s, Visible(i))) == OptSyms(p.visible))
            && (if p.Default? then Part(c, Frame(s, Value(i))) == OptSyms(Some(p.e))
              else Done(c, [], Frame(s, Value(i))))
  {
  }

  lemma DoneMore(c: Config, before: seq<Symbol>, order: seq<Symbol>, f: Frame)
    requires before <= order
    ensures Done(c, before, f) ==> Done(c, order, f)
  {
    if Done(c, before, f) {
      forall t | t in Part(c, f) ensures t in order {
        var i :| 0 <= i < |before| && before[i] == t;
        assert order[i] == t;
      }
    }
  }

  lemma PropsMore(c: Config, before: seq<Symbol>, order: seq<Symbol>, s: Symbol, i: nat)
    requires before <= order
    ensures PropsDone(c, before, s, 0, i) && PropsDone(c, order, s, i, i + 1) ==> PropsDone(c, order, s, 0, i + 1)
  {
    if PropsDone(c, before, s, 0, i) && PropsDone(c, order, s, i, i + 1) {
      forall k: nat | k < i + 1 ensures Done(c, order, Frame(s, Visible(k))) && Done(c, order, Frame(s, Value(k))) {
        DoneMore(c, before, order, Frame(s, Visible(k)));
        DoneMore(c, before, order, Frame(s, Value(k)));
      }
    }
  }

  lemma EdgesDone(c: Config, before: seq<Symbol>, order: seq<Symbol>, s: Symbol)
    requires before <= order && Done(c, before, Frame(s, Selected))
    requires PropsDone(c, order, s, 0, |Def(c, s).props|)
    ensures forall t :: Edge(c, s, t) ==> t in order
  {
    forall t | Edge(c, s, t) ensures t in order {
      var via :| t in Part(c, Frame(s, via));
      DoneMore(c, before, order, Frame(s, Selected));
      assert Done(c, order, Frame(s, via)) by {
        if via.Visible? { assert via.i < |Def(c, s).props|; }
        if via.Value? { assert via.i < |Def(c, s).props|; }
      }
    }
  }

  class Checker {
    const config: Config
    /** The hash table of symbols, and the three symbols that are not in it. */
    ghost const symbols: set<Symbol>
    /** The symbols with SYMBOL_CHECK, and those with SYMBOL_CHECKED. */
    var check: set<Symbol>
    var checked: set<Symbol>
    /** The entries from the bottom of the stack up to check_top. */
    var stack: seq<Frame>
    /** The recursive dependencies that have been printed. */
    var reports: seq<seq<Frame>>
    /** The symbols that have been checked without a report, as they were finished. */
    ghost var order: seq<Symbol>

    constructor (config: Config, ghost symbols: set<Symbol>)
      requires Closed(config, symbols)
      ensures this.config == config && this.symbols == symbols && Valid()
      ensures stack == [] && check == {} && checked == {} && reports == []
    {
      this.config, this.symbols := config, symbols;
      check, checked, stack, reports, order := {}, {}, [], [], [];
    }

    ghost predicate Valid()
      reads this
    {
      Holds({})
    }

    /** The symbols with SYMBOL_CHECK are those on the stack, and those of entering,
        which have the flag without an entry. */
    ghost predicate Holds(entering: set<Symbol>)
      reads this
    {
      && Closed(config, symbols) && check <= checked <= symbols
      && Chain(config, stack)
      && (forall i :: 0 <= i < |stack| ==> stack[i].sym in check)
      && (forall s :: s in check ==> s in entering || OnStack(s))
      && (forall r :: r in reports ==> Cycle(config, r))
      && (reports == [] ==> Ordered(config, order) && forall s :: s in checked <==> s in check || s in order)
    }

    ghost predicate OnStack(s: Symbol)
      reads this
    {
      exists i :: 0 <= i < |stack| && stack[i].sym == s
    }

    /** What a check leaves as it was, and what it adds. */
    twostate predicate Goes()
      reads this
    {
      && check == old(check) && |stack| == |old(stack)| && old(checked) <= checked
      && old(reports) <= reports && old(order) <= order
    }

    /** sym_check_print_recursive: the symbol is always found on the stack. */
    method PrintRecursive(last: Symbol)
      requires Valid() && last in check
      requires last in Part(config, stack[|stack| - 1])
      modifies this`reports
      ensures Valid() && Goes() && reports != []
    {
      var i := |stack|;
      while i > 0 && stack[i - 1].sym != last
        invariant 0 <= i <= |stack|
        invariant forall k :: i <= k < |stack| ==> stack[k].sym != last
      {
        i := i - 1;
      }
      if i == 0 {
        assert false;
      } else {
        var frames := stack[i - 1..];
        assert Cycle(config, frames);
        reports := reports + [frames];
      }
    }

    /** sym_check_deps, without choices. A symbol that is returned is still being
        checked further down the stack. */
    method CheckDeps(sym: Symbol) returns (found: Option<Symbol>)
      requires Valid() && sym in symbols
      requires stack == [] || sym in Part(config, stack[|stack| - 1])
      modifies this
      ensures Valid() && Goes() && stack == old(stack) && sym in checked
      ensures found.Some? ==> found.value in check && reports != []
      ensures reports == [] ==> sym in order
      decreases symbols - checked, 2, 0
    {
      if sym in check {
        PrintRecursive(sym);
        found := Some(sym);
      } else if sym in checked {
        found := None;
      } else {
        check, checked := check + {sym}, checked + {sym};
        found := CheckSymDeps(sym);
        check := check - {sym};
        if reports == [] {
          OrderedMore(config, order, sym);
          order := order + [sym];
        }
        if found == Some(sym) {
          found := None;
        }
      }
    }

    /** sym_check_expr_deps */
    method CheckExprDeps(e: Option<Expr>) returns (found: Option<Symbol>)
      requires Valid() && stack != [] && MayFollow(config, symbols, stack[|stack| - 1], OptSyms(e))
      modifies this
      ensures Valid() && Goes() && stack == old(stack)
      ensures found.Some? ==> found.value in check && reports != []
      ensures reports == [] ==> AllIn(OptSyms(e), order)
      decreases symbols - checked, 3, if e.Some? then Size(e.value) else 0
    {
      hide Holds, AllIn, MayFollow;
      found := None;
      if e.None? {
        NoSyms(order);
      } else {
        match e.value
        case Bin(_, a, b) =>
          FollowBoth(config, symbols, stack[|stack| - 1], Syms(a), Syms(b));
          found := CheckExprDeps(Some(a));
          ghost var before := order;
          if found.None? {
            found := CheckExprDeps(Some(b));
            InBoth(Syms(a), Syms(b), before, order);
          }
        case Not(a) =>
          found := CheckExprDeps(Some(a));
        case Equal(l, r) =>
          found := CheckTwo(l, r);
        case Unequal(l, r) =>
          found := CheckTwo(l, r);
        case Sym(s) =>
          found := CheckOne(s);
      }
    }

    method CheckOne(s: Symbol) returns (found: Option<Symbol>)
      requires Valid() && stack != [] && MayFollow(config, symbols, stack[|stack| - 1], [s])
      modifies this
      ensures Valid() && Goes() && stack == old(stack)
      ensures found.Some? ==> found.value in check && reports != []
      ensures reports == [] ==> AllIn([s], order)
      decreases symbols - checked, 2, 1
    {
      hide Holds;
      assert [s][0] == s;
      found := CheckDeps(s);
    }

    method CheckTwo(l: Symbol, r: Symbol) returns (found: Option<Symbol>)
      requires Valid() && stack != [] && MayFollow(config, symbols, stack[|stack| - 1], [l, r])
      modifies this
      ensures Valid() && Goes() && stack == old(stack)
      ensures found.Some? ==> found.value in check && reports != []
      ensures reports == [] ==> AllIn([l, r], order)
      decreases symbols - checked, 2, 2
    {
      hide Holds, AllIn, MayFollow;
      assert [l, r] == [l] + [r];
      FollowBoth(config, symbols, stack[|stack| - 1], [l], [r]);
      found := CheckOne(l);
      ghost var before := order;
      if found.None? {
        found := CheckOne(r);
        InBoth([l], [r], before, order);
      }
    }

    /** The entry on top of the stack goes on to another part of its symbol. */
    method Enter(via: Via)
      requires Valid() && stack != []
      modifies this`stack
      ensures Valid() && Goes() && stack == old(stack)[..|stack| - 1] + [Frame(old(stack)[|stack| - 1].sym, via)]
    {
      var top := |stack| - 1;
      stack := stack[..top] + [Frame(stack[top].sym, via)];
      assert forall i :: 0 <= i <= top ==> stack[i].sym == old(stack)[i].sym;
      assert forall s :: old(OnStack(s)) ==> OnStack(s);
    }

    method CheckPart(via: Via, e: Option<Expr>) returns (found: Option<Symbol>)
      requires Valid() && stack != []
      requires Part(config, Frame(stack[|stack| - 1].sym, via)) == OptSyms(e)
      modifies this
      ensures Valid() && Goes() && stack == old(stack)[..|stack| - 1] + [Frame(old(stack)[|stack| - 1].sym, via)]
      ensures found.Some? ==> found.value in check && reports != []
      ensures reports == [] ==> Done(config, order, Frame(old(stack)[|stack| - 1].sym, via))
      decreases symbols - checked, 4
    {
      Enter(via);
      FollowPart(config, symbols, stack[|stack| - 1]);
      found := CheckExprDeps(e);
    }

    method CheckProperty(i: nat) returns (found: Option<Symbol>)
      requires Valid() && stack != []
      requires i < |Def(config, stack[|stack| - 1].sym).props|
      modifies this
      ensures Valid() && Goes() && stack[..|stack| - 1] == old(stack)[..|stack| - 1]
      ensures stack[|stack| - 1].sym == old(stack)[|stack| - 1].sym
      ensures found.Some? ==> found.value in check && reports != []
      ensures reports == [] ==> PropsDone(config, order, old(stack)[|stack| - 1].sym, i, i + 1)
      decreases symbols - checked, 5
    {
      hide Holds, Part, Chain, Cycle, Ordered, Closed;
      ghost var sym := stack[|stack| - 1].sym;
      var prop := Def(config, stack[|stack| - 1].sym).props[i];
      found := None;
      PartShape(config, sym, i);
      if !prop.Select? {
        found := CheckPart(Visible(i), prop.visible);
        if found.None? && prop.Default? {
          ghost var before := order;
          found := CheckPart(Value(i), Some(prop.e));
          DoneMore(config, before, order, Frame(sym, Visible(i)));
        }
      }
    }

    /** The loop of sym_check_sym_deps over the properties of sym. */
    method CheckProps() returns (found: Option<Symbol>)
      requires Valid() && stack != []
      modifies this
      ensures Valid() && Goes() && stack[..|stack| - 1] == old(stack)[..|stack| - 1]
      ensures stack[|stack| - 1].sym == old(stack)[|stack| - 1].sym
      ensures found.Some? ==> found.value in check && reports != []
      ensures reports == [] ==>
                var sym := old(stack)[|stack| - 1].sym; PropsDone(config, order, sym, 0, |Def(config, sym).props|)
      decreases symbols - checked, 6
    {
      hide Holds, Part, Chain, Cycle, Ordered, Closed, Done;
      found := None;
      var sym := stack[|stack| - 1].sym;
      var i := 0;
      while i < |Def(config, sym).props| && found.None?
        invariant 0 <= i <= |Def(config, sym).props|
        invariant Valid() && Goes() && stack[..|stack| - 1] == old(stack)[..|stack| - 1]
          && stack[|stack| - 1].sym == sym
        invariant found.Some? ==> found.value in check && reports != []
        invariant reports == [] ==> PropsDone(config, order, sym, 0, i)
      {
        ghost var before := order;
        found := CheckProperty(i);
        PropsMore(config, before, order, sym, i);
        i := i + 1;
      }
    }

    /** sym_check_sym_deps */
    method CheckSymDeps(sym: Symbol) returns (found: Option<Symbol>)
      requires Holds({sym}) && sym in check && !OnStack(sym)
      requires stack == [] || sym in Part(config, stack[|stack| - 1])
      modifies this
      ensures Holds({sym}) && Goes() && stack == old(stack)
      ensures found.Some? ==> found.value in check && reports != []
      ensures reports == [] ==> forall t :: Edge(config, sym, t) ==> t in order
      decreases symbols - checked, 7
    {
      hide Holds, OnStack, Chain, Cycle, Ordered, Closed, Edge, PropsDone;
      Push(sym);
      assert Frame(sym, Selected) == stack[|stack| - 1];
      FollowPart(config, symbols, stack[|stack| - 1]);
      found := CheckExprDeps(Def(config, sym).revDep);
      ghost var before := order;
      if found.None? {
        found := CheckProps();
      }
      if reports == [] {
        EdgesDone(config, before, order, sym);
      }
      Pop();
    }

    /** dep_stack_insert */
    method Push(sym: Symbol)
      requires Holds({sym}) && sym in check
      requires stack == [] || sym in Part(config, stack[|stack| - 1])
      modifies this`stack
      ensures Valid() && stack == old(stack) + [Frame(sym, Selected)]
      ensures Closed(config, symbols) && sym in symbols
    {
      stack := stack + [Frame(sym, Selected)];
      assert stack[|stack| - 1].sym == sym;
      forall s | s in check ensures OnStack(s) {
        if s != sym {
          var i :| 0 <= i < |old(stack)| && old(stack)[i].sym == s;
          assert stack[i].sym == s;
        }
      }
    }

    /** dep_stack_remove */
    method Pop()
      requires Valid() && stack != []
      modifies this`stack
      ensures Holds({old(stack)[|old(stack)| - 1].sym}) && stack == old(stack)[..|old(stack)| - 1]
    {
      stack := stack[..|stack| - 1];
      forall s | s in check && s != old(stack)[|old(stack)| - 1].sym ensures OnStack(s) {
        var i :| 0 <= i < |old(stack)| && old(stack)[i].sym == s;
        assert stack[i].sym == s;
      }
    }
  }

  /** The check that follows the reading of a configuration: every symbol of the
      hash table, counting the symbols that are returned. Something is reported if
      and only if there is a recursive dependency, and what is reported is one. But
      sym_check_deps never returns a symbol to this loop, which was to end the
      program. */
  method CheckAll(config: Config, table: seq<Symbol>)
    returns (reports: seq<seq<Frame>>, errors: nat, ghost order: seq<Symbol>)
    requires forall s :: s in config ==> s in table
    requires Closed(config, Table(table))
    ensures forall r :: r in reports ==> Cycle(config, r)
    ensures reports == [] <==> !Cyclic(config)
    ensures errors == 0
    ensures reports == [] ==> Ordered(config, order) && AllIn(table, order)
  {
    var checker := new Checker(config, Table(table));
    errors := 0;
    var i := 0;
    while i < |table|
      invariant 0 <= i <= |table|
      invariant fresh(checker) && checker.config == config && checker.symbols == Table(table)
      invariant checker.Valid() && checker.stack == [] && checker.check == {}
      invariant checker.reports == [] ==> AllIn(table[..i], checker.order)
      invariant errors == 0
    {
      hide AllIn, Chain, Cycle, Ordered, Closed;
      ghost var before := checker.order;
      assert table[i] in Table(table);
      var found := checker.CheckDeps(table[i]);
      errors := errors + if found.Some? then 1 else 0;
      assert table[..i + 1] == table[..i] + [table[i]];
      if checker.reports == [] {
        assert AllIn([table[i]], checker.order) by { InOne(table[i], checker.order); }
        InBoth(table[..i], [table[i]], before, checker.order);
      }
      i := i + 1;
    }
    reports, order := checker.reports, checker.order;
    assert table[..i] == table;
    if reports == [] {
      NotCyclic(config, table, checker.order);
    } else {
      assert Cycle(config, reports[0]);
    }
  }

  ghost function Table(table: seq<Symbol>): set<Symbol> {
    (set s | s in table) + {Yes, Mod, No}
  }

  lemma InOne(s: Symbol, order: seq<Symbol>)
    requires s in order
    ensures AllIn([s], order)
  {
  }

  /** If every symbol of the table is in the order, there is no cycle. */
  lemma NotCyclic(c: Config, table: seq<Symbol>, order: seq<Symbol>)
    requires forall s :: s in c ==> s in table
    requires AllIn(table, order) && Ordered(c, order)
    ensures !Cyclic(c)
  {
    if Cyclic(c) {
      var fs: seq<Frame> :| Cycle(c, fs);
      var t := if |fs| > 1 then fs[1].sym else fs[0].sym;
      assert t in Part(c, fs[0]);
      assert fs[0].sym in c;
      assert fs[0].sym in table;
      var k :| 0 <= k < |order| && order[k] == fs[0].sym;
      OrderedAcyclic(c, order, fs, k);
    }
  }
}
