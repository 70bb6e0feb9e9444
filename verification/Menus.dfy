/** menu.c: the rearrangement of the menu tree (menu_finalize). */
module Menus {
  import opened Kconfig
  import opened Symbols
  import opened ExprTransform
  import opened ExprContradict
  import opened MenuDeps

  /** struct menu */
  class Menu {
    var next: Menu?
    var parent: Menu?
    var list: Menu?
    const sym: Option<Symbol>
    /** There is a prompt, and there is one with a text. */
    const prompted: bool
    const titled: bool
    /** What the entry depends on, and when its prompt is shown. */
    var dep: Option<Expr>
    var visible: Option<Expr>
  }

  datatype Info = Info(dep: Option<Expr>, visible: Option<Expr>)

  /** Entries side by side, each with those below it. */
  datatype Forest = Nil | Cons(menu: Menu, info: Info, kids: Forest, rest: Forest)

  /** The entries in the order in which they are shown: each before those below it. */
  function Pre(f: Forest): seq<Menu> {
    if f.Nil? then [] else [f.menu] + Pre(f.kids) + Pre(f.rest)
  }

  function Nodes(f: Forest): set<Menu> {
    if f.Nil? then {} else {f.menu} + Nodes(f.kids) + Nodes(f.rest)
  }

  /** No entry occurs twice. */
  predicate Distinct(f: Forest) {
    f.Cons? ==>
      && f.menu !in Nodes(f.kids) && f.menu !in Nodes(f.rest) && Nodes(f.kids) !! Nodes(f.rest)
      && Distinct(f.kids) && Distinct(f.rest)
  }

  /** The pointers of the entries, which are in s: siblings are linked by next, from
      first up to stop; list leads to those below; and the parent of an entry is the
      one whose list it is in. */
  ghost predicate Linked(f: Forest, first: Menu?, parent: Menu?, stop: Menu?, s: set<Menu>)
    reads s
  {
    if f.Nil? then first == stop
    else
      && first == f.menu && f.menu in s && f.menu.parent == parent && f.info == Info(f.menu.dep, f.menu.visible)
      && Linked(f.kids, f.menu.list, f.menu, null, s) && Linked(f.rest, f.menu.next, parent, stop, s)
  }

  /** Entries without a title have nothing below them. */
  predicate Flat(f: Forest) {
    f.Cons? ==> (f.kids.Cons? ==> f.menu.titled) && Flat(f.kids) && Flat(f.rest)
  }

  /** The same of what is below the entries. */
  predicate FlatBelow(f: Forest) {
    f.Cons? ==> Flat(f.kids) && FlatBelow(f.rest)
  }

  function Append(f: Forest, g: Forest): Forest {
    if f.Nil? then g else Cons(f.menu, f.info, f.kids, Append(f.rest, g))
  }

  lemma {:induction false} AppendPre(f: Forest, g: Forest)
    ensures Pre(Append(f, g)) == Pre(f) + Pre(g)
    ensures Nodes(Append(f, g)) == Nodes(f) + Nodes(g)
    ensures Distinct(f) && Distinct(g) && Nodes(f) !! Nodes(g) ==> Distinct(Append(f, g))
  {
    if f.Cons? {
      AppendPre(f.rest, g);
      assert Pre(Append(f, g)) == [f.menu] + Pre(f.kids) + (Pre(f.rest) + Pre(g));
    }
  }

  lemma {:induction false} AppendLinked(f: Forest, g: Forest, first: Menu?, mid: Menu?, parent: Menu?, stop: Menu?,
          s: set<Menu>)
    requires Linked(f, first, parent, mid, s) && Linked(g, mid, parent, stop, s)
    ensures Linked(Append(f, g), first, parent, stop, s)
  {
    if f.Cons? { AppendLinked(f.rest, g, f.menu.next, mid, parent, stop, s); }
  }

  lemma {:induction false} AppendFlat(f: Forest, g: Forest)
    ensures Flat(f) && Flat(g) ==> Flat(Append(f, g))
    ensures FlatBelow(f) && FlatBelow(g) ==> FlatBelow(Append(f, g))
    ensures Flat(f) ==> FlatBelow(f)
  {
    if f.Cons? { AppendFlat(f.rest, g); }
  }

  /** The first entry with what is below it. */
  function One(t: Forest): Forest
    requires t.Cons?
  {
    Cons(t.menu, t.info, t.kids, Nil)
  }

  lemma {:induction false} AppendStep(f: Forest, t: Forest, g: Forest)
    requires t.Cons?
    ensures Append(Append(f, One(t)), g) == Append(f, Cons(t.menu, t.info, t.kids, g))
  {
    if f.Cons? { AppendStep(f.rest, t, g); }
  }

  /** Only the entries themselves matter. */
  lemma {:induction false} LinkedIn(f: Forest, first: Menu?, parent: Menu?, stop: Menu?, s: set<Menu>, u: set<Menu>)
    requires Linked(f, first, parent, stop, s) && Nodes(f) <= u
    ensures Linked(f, first, parent, stop, u)
  {
    if f.Cons? {
      LinkedIn(f.kids, f.menu.list, f.menu, null, s, u);
      LinkedIn(f.rest, f.menu.next, parent, stop, s, u);
    }
  }

  function Count(f: Forest): nat {
    if f.Nil? then 0 else 1 + Count(f.kids) + Count(f.rest)
  }

  lemma {:induction false} AppendCount(f: Forest, g: Forest)
    ensures Count(Append(f, g)) == Count(f) + Count(g)
  {
    if f.Cons? { AppendCount(f.rest, g); }
  }

  // ----- the tree that menu_finalize makes -----

  /** expr_alloc_and, expr_transform, expr_eliminate_dups and expr_trans_bool, where
      the expression may be missing */
  function AllocAnd(a: Option<Expr>, b: Option<Expr>): Option<Expr> {
    if a.None? then b else if b.None? then a else Some(Bin(And, a.value, b.value))
  }

  function OptTransform(e: Option<Expr>): Option<Expr> { if e.None? then e else Some(Transform(e.value)) }
  function OptDups(e: Option<Expr>): Option<Expr> { if e.None? then e else Some(EliminateDups(e.value)) }
  function OptBool(e: Option<Expr>): Option<Expr> { if e.None? then e else Some(TransBool(e.value)) }

  /** When an entry is shown. */
  function Guard(m: Menu, info: Info): Option<Expr> {
    if m.prompted then info.visible else info.dep
  }

  /** An entry in the list of another gets the condition of that one as well. */
  function Inherited(m: Menu, info: Info, above: Option<Expr>): Info {
    var dep := OptDups(AllocAnd(above, OptTransform(info.dep)));
    var visible := OptDups(AllocAnd(dep, OptTransform(info.visible)));
    Info(dep, if !m.prompted then info.visible
              else if m.sym.Some? && m.sym.value.Type() != Tristate then OptBool(visible) else visible)
  }

  function Inherit(f: Forest, above: Option<Expr>): (r: Forest)
    ensures Count(r) == Count(f)
  {
    if f.Nil? then f else Cons(f.menu, Inherited(f.menu, f.info, above), f.kids, Inherit(f.rest, above))
  }

  /** An entry and those after it: what is in its list is finalized, or else the
      entries after it that depend on its symbol are put there; then those without a
      title are made to have nothing below them. */
  function Final(t: Forest): (r: Forest)
    requires t.Cons?
    ensures r.Cons? && r.menu == t.menu && Count(r) == Count(t)
    decreases Count(t), 0
  {
    if t.kids.Cons? then
      Cons(t.menu, t.info, Flatten(FinalAll(Inherit(t.kids, Guard(t.menu, t.info)))), t.rest)
    else if t.menu.sym.Some? then
      var taken := Take(t.menu.sym.value, if t.menu.prompted then t.info.visible else None, t.rest);
      Cons(t.menu, t.info, Flatten(taken.0), taken.1)
    else t
  }

  function FinalAll(f: Forest): (r: Forest)
    ensures Count(r) == Count(f)
    decreases Count(f), 1
  {
    if f.Nil? then f
    else
      var t := Final(f);
      Cons(t.menu, t.info, t.kids, FinalAll(t.rest))
  }

  /** The entries that belong below one with symbol s, finalized, and the others. */
  function Take(s: Symbol, base: Option<Expr>, f: Forest): (r: (Forest, Forest))
    ensures Count(r.0) + Count(r.1) == Count(f)
    decreases Count(f), 1
  {
    if f.Cons? && Belongs(s, base, Guard(f.menu, f.info)) then
      var t := Final(f);
      var more := Take(s, base, t.rest);
      (Cons(t.menu, t.info, t.kids, more.0), more.1)
    else (Nil, f)
  }

  function Flatten(f: Forest): (r: Forest)
    ensures Count(r) == Count(f)
    decreases Count(f)
  {
    if f.Nil? then f
    else if f.kids.Cons? && !f.menu.titled then
      AppendCount(f.kids, f.rest);
      Cons(f.menu, f.info, Nil, Flatten(Append(f.kids, f.rest)))
    else Cons(f.menu, f.info, f.kids, Flatten(f.rest))
  }

  // ----- every entry is kept once and in the same order -----

  /** f and g together have the entries of h, in its order, each as often. */
  predicate Splits(f: Forest, g: Forest, h: Forest) {
    && Pre(f) + Pre(g) == Pre(h) && Nodes(f) + Nodes(g) == Nodes(h)
    && (Distinct(h) ==> Distinct(f) && Distinct(g) && Nodes(f) !! Nodes(g))
  }

  predicate Same(f: Forest, g: Forest) {
    Pre(f) == Pre(g) && Nodes(f) == Nodes(g) && (Distinct(g) ==> Distinct(f))
  }

  lemma InOrder(m: Menu, info: Info, kids: Forest, rest: Forest)
    ensures var t := Cons(m, info, kids, rest);
            && Pre(t) == [m] + (Pre(kids) + Pre(rest)) && Nodes(t) == {m} + (Nodes(kids) + Nodes(rest))
            && (Distinct(t) <==>
              m !in Nodes(kids) + Nodes(rest) && Nodes(kids) !! Nodes(rest) && Distinct(kids) && Distinct(rest))
  {
  }

  /** An entry with what is below it now and what comes after it now. */
  lemma PutTogether(t: Forest, info: Info, kids: Forest, rest: Forest)
    requires t.Cons? && Pre(kids) + Pre(rest) == Pre(t.kids) + Pre(t.rest)
    requires Nodes(kids) + Nodes(rest) == Nodes(t.kids) + Nodes(t.rest)
    requires Distinct(t) ==> Distinct(kids) && Distinct(rest) && Nodes(kids) !! Nodes(rest)
    ensures Same(Cons(t.menu, info, kids, rest), t)
  {
    hide Pre, Nodes, Distinct;
    InOrder(t.menu, info, kids, rest);
    InOrder(t.menu, t.info, t.kids, t.rest);
    assert t == Cons(t.menu, t.info, t.kids, t.rest);
  }

  lemma {:induction false} InheritKeeps(f: Forest, above: Option<Expr>)
    ensures Same(Inherit(f, above), f) && Inherit(f, above).Cons? == f.Cons?
  {
    if f.Cons? {
      InheritKeeps(f.rest, above);
      PutTogether(f, Inherited(f.menu, f.info, above), f.kids, Inherit(f.rest, above));
    }
  }

  lemma {:induction false} FlattenKeeps(f: Forest)
    ensures Same(Flatten(f), f)
    ensures FlatBelow(f) ==> Flat(Flatten(f))
    decreases Count(f)
  {
    if f.Cons? {
      if f.kids.Cons? && !f.menu.titled {
        var both := Append(f.kids, f.rest);
        AppendCount(f.kids, f.rest);
        AppendPre(f.kids, f.rest);
        FlattenKeeps(both);
        AppendFlat(f.kids, f.rest);
        AppendFlat(f.kids, Nil);
        FlattenSplice(f, Flatten(both));
      } else {
        FlattenKeeps(f.rest);
        PutTogether(f, f.info, f.kids, Flatten(f.rest));
      }
    }
  }

  lemma FlattenSplice(f: Forest, r: Forest)
    requires f.Cons? && Same(r, Append(f.kids, f.rest))
    ensures Same(Cons(f.menu, f.info, Nil, r), f)
  {
    hide Append;
    AppendPre(f.kids, f.rest);
    PutTogether(f, f.info, Nil, r);
  }

  /** Every entry is kept once, the order stays the same, and entries without a title
      have nothing below them in the end. */
  lemma {:induction false} FinalKeeps(t: Forest)
    requires t.Cons?
    ensures Same(Final(t), t) && Flat(Final(t).kids)
    decreases Count(t), 0
  {
    hide Inherited, Belongs, Pre, Nodes, Distinct, Flatten, FinalAll, Take, Inherit, Flat;
    if t.kids.Cons? {
      var kids := Inherit(t.kids, Guard(t.menu, t.info));
      InheritKeeps(t.kids, Guard(t.menu, t.info));
      AllKeeps(kids);
      FlattenKeeps(FinalAll(kids));
      InOrder(t.menu, t.info, t.kids, t.rest);
      PutTogether(t, t.info, Flatten(FinalAll(kids)), t.rest);
    } else if t.menu.sym.Some? {
      var base := if t.menu.prompted then t.info.visible else None;
      var taken := Take(t.menu.sym.value, base, t.rest);
      TakeKeeps(t.menu.sym.value, base, t.rest);
      FlattenKeeps(taken.0);
      InOrder(t.menu, t.info, t.kids, t.rest);
      NilParts();
      PutTogether(t, t.info, Flatten(taken.0), taken.1);
    } else {
      NilParts();
    }
  }

  lemma NilParts()
    ensures Pre(Nil) == [] && Nodes(Nil) == {} && Flat(Nil) && FlatBelow(Nil) && Distinct(Nil)
  {
  }

  lemma {:induction false} AllKeeps(f: Forest)
    ensures Same(FinalAll(f), f) && FlatBelow(FinalAll(f))
    decreases Count(f), 1
  {
    if f.Cons? {
      hide Final;
      var t := Final(f);
      FinalKeeps(f);
      AllKeeps(t.rest);
      PutTogether(t, t.info, t.kids, FinalAll(t.rest));
    }
  }

  lemma {:induction false} TakeKeeps(s: Symbol, base: Option<Expr>, f: Forest)
    ensures var r := Take(s, base, f); Splits(r.0, r.1, f) && FlatBelow(r.0)
    decreases Count(f), 1
  {
    hide Belongs, Final;
    if f.Cons? && Belongs(s, base, Guard(f.menu, f.info)) {
      var t := Final(f);
      FinalKeeps(f);
      TakeKeeps(s, base, t.rest);
      SplitsMore(t, Take(s, base, t.rest).0, Take(s, base, t.rest).1);
    }
  }

  lemma SplitsMore(t: Forest, f: Forest, g: Forest)
    requires t.Cons? && Splits(f, g, t.rest)
    ensures Splits(Cons(t.menu, t.info, t.kids, f), g, t)
  {
    hide Pre, Nodes, Distinct;
    InOrder(t.menu, t.info, t.kids, f);
    InOrder(t.menu, t.info, t.kids, t.rest);
    assert t == Cons(t.menu, t.info, t.kids, t.rest);
    assert [t.menu] + (Pre(t.kids) + Pre(f)) + Pre(g) == [t.menu] + (Pre(t.kids) + (Pre(f) + Pre(g)));
  }

  // ----- the pointers of a part of the tree -----

  /** Two forests side by side, with none of the others among them. */
  predicate Apart(done: Forest, todo: Forest, others: set<Menu?>) {
    && Distinct(done) && Distinct(todo) && Nodes(done) !! Nodes(todo)
    && forall m :: m in Nodes(done) || m in Nodes(todo) ==> m !in others
  }

  /** One more entry of todo, which has become t, is done. */
  lemma StepApart(done: Forest, todo: Forest, t: Forest, others: set<Menu?>)
    requires Apart(done, todo, others) && t.Cons? && Same(t, todo)
    ensures Apart(Append(done, One(t)), t.rest, others) && t.menu in Nodes(todo) && t.menu !in others
    ensures Nodes(Append(done, One(t))) + Nodes(t.rest) == Nodes(done) + Nodes(todo)
    ensures Distinct(t) && Nodes(t) == Nodes(todo)
  {
    hide Nodes, Distinct;
    hide Pre, Append;
    AppendPre(done, One(t));
    InOrder(t.menu, t.info, t.kids, t.rest);
    InOrder(t.menu, t.info, t.kids, Nil);
    NilParts();
    assert t == Cons(t.menu, t.info, t.kids, t.rest);
  }

  /** The pointers of an entry, those below it and those after it. */
  lemma Unfold(t: Forest, parent: Menu?, s: set<Menu>)
    requires t.Cons? && Linked(t, t.menu, parent, null, s) && Distinct(t)
    ensures t.menu in s && t.menu.parent == parent && t.info == Info(t.menu.dep, t.menu.visible)
    ensures Linked(t.kids, t.menu.list, t.menu, null, Nodes(t.kids))
      && Linked(t.rest, t.menu.next, parent, null, Nodes(t.rest))
    ensures t.menu !in Nodes(t.kids) && t.menu !in Nodes(t.rest)
    ensures t.menu.list == null <==> t.kids.Nil?
  {
    LinkedIn(t.kids, t.menu.list, t.menu, null, s, Nodes(t.kids));
    LinkedIn(t.rest, t.menu.next, parent, null, s, Nodes(t.rest));
  }

  lemma StepLinked(parent: Menu?, done: Forest, first: Menu?, t: Forest, a: set<Menu>)
    requires t.Cons? && Linked(done, first, parent, t.menu, a)
    requires t.menu.parent == parent && t.info == Info(t.menu.dep, t.menu.visible)
    requires Linked(t.kids, t.menu.list, t.menu, null, Nodes(t.kids))
    ensures var more := Append(done, One(t)); Linked(more, first, parent, t.menu.next, Nodes(more))
  {
    var more := Append(done, One(t));
    AppendPre(done, One(t));
    assert Nodes(One(t)) == {t.menu} + Nodes(t.kids);
    LinkedIn(done, first, parent, t.menu, a, Nodes(more));
    LinkedIn(t.kids, t.menu.list, t.menu, null, Nodes(t.kids), Nodes(more));
    AppendLinked(done, One(t), first, t.menu, parent, t.menu.next, Nodes(more));
  }

  lemma Empty(first: Menu?, parent: Menu?)
    ensures Linked(Nil, first, parent, first, {}) && Nodes(Nil) == {} && Distinct(Nil)
  {
  }

  lemma Started(f: Forest, first: Menu, parent: Menu?, s: set<Menu>)
    requires Linked(f, first, parent, null, s)
    ensures f.Cons? && f.menu == first && first in s && Count(f) > 0 && f.info == Info(first.dep, first.visible)
  {
  }

  lemma Ended(f: Forest, parent: Menu?, s: set<Menu>)
    requires Linked(f, null, parent, null, s)
    ensures f == Nil
  {
  }

  lemma {:induction false} AppendNil(f: Forest)
    ensures Append(f, Nil) == f && Append(Nil, f) == f
  {
    if f.Cons? { AppendNil(f.rest); }
  }

  function Last(f: Forest): Menu
    requires f.Cons?
  {
    if f.rest.Nil? then f.menu else Last(f.rest)
  }

  lemma {:induction false} LastAppend(f: Forest, t: Forest)
    requires t.Cons?
    ensures Append(f, One(t)).Cons? && Last(Append(f, One(t))) == t.menu && t.menu in Nodes(Append(f, One(t)))
  {
    if f.Cons? { LastAppend(f.rest, t); }
  }

  lemma {:induction false} InLast(f: Forest)
    requires f.Cons?
    ensures Last(f) in Nodes(f)
  {
    if f.rest.Cons? { InLast(f.rest); }
  }

  /** The entries before the last one. */
  lemma {:induction false} SplitLast(f: Forest, first: Menu?, parent: Menu?, stop: Menu?, s: set<Menu>)
      returns (front: Forest, t: Forest)
    requires f.Cons? && Linked(f, first, parent, stop, s) && Distinct(f)
    ensures t.Cons? && t.menu == Last(f) && t.rest.Nil? && f == Append(front, One(t))
    ensures Linked(front, first, parent, t.menu, Nodes(front)) && t.menu.next == stop && t.menu.parent == parent
    ensures Linked(t.kids, t.menu.list, t.menu, null, Nodes(t.kids)) && t.info == Info(t.menu.dep, t.menu.visible)
    ensures t.menu !in Nodes(front) && t.menu !in Nodes(t.kids) && t.menu in Nodes(f)
  {
    if f.rest.Nil? {
      front, t := Nil, f;
      LinkedIn(t.kids, t.menu.list, t.menu, null, s, Nodes(t.kids));
    } else {
      var more;
      more, t := SplitLast(f.rest, f.menu.next, parent, stop, s);
      front := Cons(f.menu, f.info, f.kids, more);
      AppendPre(more, One(t));
      LinkedIn(f.kids, f.menu.list, f.menu, null, s, Nodes(front));
      LinkedIn(more, f.menu.next, parent, t.menu, Nodes(more), Nodes(front));
    }
  }

  /** The last of some entries gets another one to come after it. */
  method LinkAfter(last: Menu, to: Menu?, ghost f: Forest, ghost first: Menu?, ghost parent: Menu?, ghost stop: Menu?,
                   ghost s: set<Menu>)
    requires f.Cons? && Linked(f, first, parent, stop, s) && Distinct(f) && last == Last(f) && s == Nodes(f)
    modifies last`next
    ensures last in s && last.next == to && Linked(f, first, parent, to, s)
  {
    ghost var front, t := SplitLast(f, first, parent, stop, s);
    ghost var a, k := Nodes(front), Nodes(t.kids);
    last.next := to;
    assert Linked(front, first, parent, last, a) && Linked(t.kids, last.list, last, null, k);
    StepLinked(parent, front, first, t, a);
  }

  // ----- menu_finalize -----

  /** The conditions of one entry in the list of another. */
  method InheritOne(menu: Menu, above: Option<Expr>, parent: Menu, ghost done: Forest, ghost rest: Forest,
                    ghost a: set<Menu>, ghost b: set<Menu>)
      returns (ghost r: Forest, ghost todo: Forest)
    requires a == Nodes(done) && b == Nodes(rest) && a !! b
    requires Linked(done, parent.list, parent, menu, a) && Linked(rest, menu, parent, null, b)
      && Apart(done, rest, {parent})
    modifies menu`dep, menu`visible
    ensures Linked(r, parent.list, parent, menu.next, Nodes(r)) && Linked(todo, menu.next, parent, null, Nodes(todo))
    ensures Apart(r, todo, {parent}) && Nodes(r) + Nodes(todo) == a + b && Count(todo) < Count(rest)
    ensures Append(r, Inherit(todo, above)) == Append(done, Inherit(rest, above))
  {
    hide Linked, Append, One, Pre, Nodes, Distinct, Inherited;
    Started(rest, menu, parent, b);
    ghost var t := Cons(menu, Inherited(menu, rest.info, above), rest.kids, rest.rest);
    InOrder(menu, rest.info, rest.kids, rest.rest);
    assert rest == Cons(menu, rest.info, rest.kids, rest.rest);
    PutTogether(rest, t.info, rest.kids, rest.rest);
    StepApart(done, rest, t, {parent});
    Unfold(rest, parent, b);
    ghost var k, rr := Nodes(rest.kids), Nodes(rest.rest);
    var info := Inherited(menu, Info(menu.dep, menu.visible), above);
    menu.dep, menu.visible := info.dep, info.visible;
    assert Linked(done, parent.list, parent, menu, a) && Linked(t.kids, menu.list, menu, null, k)
      && Linked(t.rest, menu.next, parent, null, rr);
    StepLinked(parent, done, parent.list, t, a);
    r, todo := Append(done, One(t)), t.rest;
    AppendStep(done, t, Inherit(todo, above));
  }

  /** The loop that passes the conditions of an entry on to those in its list. */
  method InheritList(parent: Menu, above: Option<Expr>, ghost kids: Forest, ghost s: set<Menu>)
    requires s == Nodes(kids)
    requires Linked(kids, parent.list, parent, null, s) && Distinct(kids) && parent !in s
    modifies s`dep, s`visible
    ensures Linked(Inherit(kids, above), parent.list, parent, null, s)
  {
    hide Linked, Append, Nodes, Distinct;
    var menu := parent.list;
    ghost var r, todo, a, b := Nil, kids, {}, s;
    Empty(menu, parent);
    AppendNil(Inherit(kids, above));
    while menu != null
      invariant a == Nodes(r) && b == Nodes(todo) && a !! b && a + b == s
      invariant Linked(r, parent.list, parent, menu, a) && Linked(todo, menu, parent, null, b)
        && Apart(r, todo, {parent})
      invariant Inherit(kids, above) == Append(r, Inherit(todo, above))
      decreases Count(todo)
    {
      hide Inherit;
      Started(todo, menu, parent, b);
      r, todo := InheritOne(menu, above, parent, r, todo, a, b);
      a, b := Nodes(r), Nodes(todo);
      menu := menu.next;
    }
    Ended(todo, parent, b);
    AppendNil(r);
  }

  /** The loop that finalizes what is in the list of an entry. */
  method FinalizeList(parent: Menu, ghost kids: Forest, ghost s: set<Menu>)
    requires s == Nodes(kids)
    requires Linked(kids, parent.list, parent, null, s) && Distinct(kids) && parent !in s
    modifies s
    ensures Linked(FinalAll(kids), parent.list, parent, null, s)
    decreases Count(kids), 10
  {
    hide Linked, Append, One, Nodes, Distinct, Pre;
    var menu := parent.list;
    ghost var r, todo, a, b := Nil, kids, {}, s;
    Empty(menu, parent);
    AppendNil(FinalAll(kids));
    while menu != null
      invariant a == Nodes(r) && b == Nodes(todo) && a !! b && a + b == s && Count(todo) <= Count(kids)
      invariant Linked(r, parent.list, parent, menu, a) && Linked(todo, menu, parent, null, b)
        && Apart(r, todo, {parent})
      invariant FinalAll(kids) == Append(r, FinalAll(todo))
      decreases Count(todo)
    {
      hide Final;
      Started(todo, menu, parent, b);
      Finalize(menu, todo, parent, b);
      ghost var t := Final(todo);
      FinalKeeps(todo);
      StepApart(r, todo, t, {parent});
      Unfold(t, parent, b);
      StepLinked(parent, r, parent.list, t, a);
      AppendStep(r, t, FinalAll(t.rest));
      r, todo := Append(r, One(t)), t.rest;
      a, b := Nodes(r), Nodes(todo);
      menu := menu.next;
    }
    Ended(todo, parent, b);
    AppendNil(r);
  }

  /** An entry that depends on the symbol of parent is finalized and gets the new
      parent. */
  method TakeOne(menu: Menu, parent: Menu, ghost first: Menu?, ghost done: Forest, ghost rest: Forest,
          ghost above: Menu?,
                 ghost a: set<Menu>, ghost b: set<Menu>)
      returns (ghost r: Forest)
    requires a == Nodes(done) && b == Nodes(rest) && a !! b
    requires Linked(done, first, parent, menu, a) && Linked(rest, menu, above, null, b)
      && Apart(done, rest, {parent, above})
    modifies b
    ensures rest.Cons? && r == Append(done, One(Final(rest))) && Count(Final(rest).rest) < Count(rest)
    ensures var todo := Final(rest).rest;
            && Linked(r, first, parent, menu.next, Nodes(r)) && Linked(todo, menu.next, above, null, Nodes(todo))
            && Apart(r, todo, {parent, above}) && Nodes(r) + Nodes(todo) == a + b
    ensures r.Cons? && Last(r) == menu && menu in Nodes(r)
    decreases Count(rest), 10
  {
    hide Linked, Append, One, Last, Pre, Nodes, Distinct, Final;
    Started(rest, menu, above, b);
    Finalize(menu, rest, above, b);
    ghost var t := Final(rest);
    FinalKeeps(rest);
    StepApart(done, rest, t, {parent, above});
    LastAppend(done, t);
    Unfold(t, above, b);
    ghost var k, rr := Nodes(t.kids), Nodes(t.rest);
    menu.parent := parent;
    assert Linked(t.kids, menu.list, menu, null, k) && Linked(t.rest, menu.next, above, null, rr);
    StepLinked(parent, done, first, t, a);
    r := Append(done, One(t));
  }

  /** The loop over the entries after parent that depend on its symbol. */
  method TakeSiblings(parent: Menu, base: Option<Expr>, ghost rest: Forest, ghost above: Menu?, ghost s: set<Menu>)
      returns (last: Menu?)
    requires s == Nodes(rest) && parent.sym.Some?
    requires Linked(rest, parent.next, above, null, s) && Distinct(rest) && parent !in s && above !in s
    modifies s
    ensures var r := Take(parent.sym.value, base, rest);
            var menu := if last == null then parent.next else last.next;
            && Linked(r.0, parent.next, parent, menu, Nodes(r.0)) && Linked(r.1, menu, above, null, Nodes(r.1))
            && if last == null then r.0 == Nil else r.0.Cons? && last == Last(r.0) && last in Nodes(r.0)
    decreases Count(rest), 11
  {
    hide Linked, Append, One, Last, Nodes, Distinct, Pre;
    var s0 := parent.sym.value;
    var menu := parent.next;
    last := null;
    ghost var r, todo, a, b := Nil, rest, {}, s;
    Empty(menu, parent);
    AppendNil(Take(s0, base, rest).0);
    while menu != null && Belongs(s0, base, Guard(menu, Info(menu.dep, menu.visible)))
      invariant a == Nodes(r) && b == Nodes(todo) && a !! b && a + b == s && Count(todo) <= Count(rest)
      invariant Linked(r, parent.next, parent, menu, a) && Linked(todo, menu, above, null, b)
        && Apart(r, todo, {parent, above})
      invariant Take(s0, base, rest).0 == Append(r, Take(s0, base, todo).0)
        && Take(s0, base, rest).1 == Take(s0, base, todo).1
      invariant if last == null then r == Nil && menu == parent.next
        else r.Cons? && last == Last(r) && last in a && menu == last.next
      decreases Count(todo)
    {
      hide Final, Belongs;
      Started(todo, menu, above, b);
      ghost var t := Final(todo);
      AppendStep(r, t, Take(s0, base, t.rest).0);
      r := TakeOne(menu, parent, parent.next, r, todo, above, a, b);
      todo := t.rest;
      a, b := Nodes(r), Nodes(todo);
      last := menu;
      menu := menu.next;
    }
    AppendNil(r);
    if menu == null {
      Ended(todo, above, b);
    } else {
      Started(todo, menu, above, b);
    }
  }

  /** An entry without a list takes the entries after it that belong below it. */
  method Nest(parent: Menu, base: Option<Expr>, ghost rest: Forest, ghost above: Menu?, ghost s: set<Menu>)
    requires s == Nodes(rest) && parent.list == null && parent.sym.Some?
    requires Linked(rest, parent.next, above, null, s) && Distinct(rest) && parent !in s && above !in s
    modifies s, parent`next, parent`list
    ensures var r := Take(parent.sym.value, base, rest);
            Linked(r.0, parent.list, parent, null, Nodes(r.0)) && Linked(r.1, parent.next, above, null, Nodes(r.1))
    decreases Count(rest), 12
  {
    hide Linked, Append, One, Last, Pre, Nodes, Distinct, Take;
    var last := TakeSiblings(parent, base, rest, above, s);
    ghost var r := Take(parent.sym.value, base, rest);
    TakeKeeps(parent.sym.value, base, rest);
    ghost var a, b := Nodes(r.0), Nodes(r.1);
    if last != null {
      parent.list := parent.next;
      parent.next := last.next;
      assert Linked(r.0, parent.list, parent, last.next, a) && Linked(r.1, parent.next, above, null, b);
      LinkAfter(last, null, r.0, parent.list, parent, last.next, a);
      assert Linked(r.1, parent.next, above, null, b);
    } else {
      Empty(null, parent);
    }
  }

  /** One entry below menu gets the parent of menu. */
  method AdoptOne(m: Menu, menu: Menu, parent: Menu, ghost first: Menu?, ghost done: Forest, ghost rest: Forest,
                  ghost a: set<Menu>, ghost b: set<Menu>)
      returns (ghost r: Forest, ghost todo: Forest)
    requires a == Nodes(done) && b == Nodes(rest) && a !! b
    requires Linked(done, first, parent, m, a) && Linked(rest, m, menu, null, b) && Apart(done, rest, {menu})
    modifies m`parent
    ensures Linked(r, first, parent, m.next, Nodes(r)) && Linked(todo, m.next, menu, null, Nodes(todo)) && m in b
    ensures Apart(r, todo, {menu}) && Append(r, todo) == Append(done, rest) && r.Cons? && Last(r) == m
    ensures Nodes(r) + Nodes(todo) == a + b && Count(todo) < Count(rest)
  {
    hide Linked, Append, One, Last, Pre, Nodes, Distinct;
    Started(rest, m, menu, b);
    StepApart(done, rest, rest, {menu});
    LastAppend(done, rest);
    AppendStep(done, rest, rest.rest);
    assert rest == Cons(rest.menu, rest.info, rest.kids, rest.rest);
    Unfold(rest, menu, b);
    ghost var k, rr := Nodes(rest.kids), Nodes(rest.rest);
    m.parent := parent;
    assert Linked(done, first, parent, m, a) && Linked(rest.kids, m.list, m, null, k)
      && Linked(rest.rest, m.next, menu, null, rr);
    StepLinked(parent, done, first, rest, a);
    r, todo := Append(done, One(rest)), rest.rest;
  }

  /** The loop that gives new parents to what is below an entry. */
  method Adopt(menu: Menu, parent: Menu, ghost kids: Forest, ghost s: set<Menu>) returns (last: Menu)
    requires s == Nodes(kids) && menu.list != null && Linked(kids, menu.list, menu, null, s) && Distinct(kids)
      && menu !in s
    modifies s`parent
    ensures kids.Cons? && Linked(kids, menu.list, parent, null, s) && last == Last(kids) && last in s
  {
    hide Linked, Append, One, Last;
    last := menu.list;
    Empty(last, parent);
    AppendNil(kids);
    ghost var r, todo, a, b := Nil, kids, {}, s;
    while true
      invariant a == Nodes(r) && b == Nodes(todo) && a !! b && a + b == s && Append(r, todo) == kids
      invariant Linked(r, menu.list, parent, last, a) && Linked(todo, last, menu, null, b) && Apart(r, todo, {menu})
      decreases Count(todo)
    {
      hide Pre, Nodes, Distinct;
      Started(todo, last, menu, b);
      r, todo := AdoptOne(last, menu, parent, menu.list, r, todo, a, b);
      a, b := Nodes(r), Nodes(todo);
      if last.next == null {
        Ended(todo, menu, b);
        AppendNil(r);
        break;
      }
      last := last.next;
    }
    InLast(kids);
  }

  /** What is below an entry without a title comes after it instead. */
  method Splice(menu: Menu, parent: Menu, ghost t: Forest, ghost s: set<Menu>) returns (ghost r: Forest)
    requires s == Nodes(t) && t.Cons? && t.menu == menu && menu.list != null
    requires Linked(t, menu, parent, null, s) && Distinct(t)
    modifies s
    ensures r == Cons(menu, t.info, Nil, Append(t.kids, t.rest)) && Linked(r, menu, parent, null, s) && Same(r, t)
  {
    hide Nodes, Pre, Append, One, Last, Distinct;
    Unfold(t, parent, s);
    ghost var k, rr := Nodes(t.kids), Nodes(t.rest);
    ghost var both := Append(t.kids, t.rest);
    AppendPre(t.kids, t.rest);
    InOrder(menu, t.info, t.kids, t.rest);
    assert t == Cons(menu, t.info, t.kids, t.rest);
    var last := Adopt(menu, parent, t.kids, k);
    LinkAfter(last, menu.next, t.kids, menu.list, parent, null, k);
    assert Linked(t.rest, menu.next, parent, null, rr);
    ghost var u := k + rr;
    LinkedIn(t.kids, menu.list, parent, menu.next, k, u);
    LinkedIn(t.rest, menu.next, parent, null, rr, u);
    AppendLinked(t.kids, t.rest, menu.list, menu.next, parent, null, u);
    menu.next := menu.list;
    menu.list := null;
    assert Linked(both, menu.next, parent, null, u);
    r := Cons(menu, t.info, Nil, both);
    FlattenSplice(t, both);
    LinkedIn(both, menu.next, parent, null, u, s);
    Empty(null, menu);
    LinkedIn(Nil, null, menu, null, {}, s);
  }

  method FlattenOne(menu: Menu, parent: Menu, ghost done: Forest, ghost rest: Forest, ghost a: set<Menu>,
          ghost b: set<Menu>)
      returns (ghost r: Forest, ghost todo: Forest)
    requires a == Nodes(done) && b == Nodes(rest) && a !! b
    requires Linked(done, parent.list, parent, menu, a) && Linked(rest, menu, parent, null, b)
      && Apart(done, rest, {parent})
    modifies b
    ensures Linked(r, parent.list, parent, menu.next, Nodes(r)) && Linked(todo, menu.next, parent, null, Nodes(todo))
    ensures Apart(r, todo, {parent}) && Append(r, Flatten(todo)) == Append(done, Flatten(rest))
    ensures Nodes(r) + Nodes(todo) == a + b && Count(todo) < Count(rest)
  {
    hide Linked, Append, One, Pre, Nodes, Distinct;
    Started(rest, menu, parent, b);
    Unfold(rest, parent, b);
    ghost var t := rest;
    if menu.list != null && !menu.titled {
      AppendCount(rest.kids, rest.rest);
      t := Splice(menu, parent, rest, b);
    }
    StepApart(done, rest, t, {parent});
    Unfold(t, parent, b);
    StepLinked(parent, done, parent.list, t, a);
    AppendStep(done, t, Flatten(t.rest));
    r, todo := Append(done, One(t)), t.rest;
  }

  /** The last loop of menu_finalize */
  method FlattenList(parent: Menu, ghost kids: Forest, ghost s: set<Menu>)
    requires s == Nodes(kids)
    requires Linked(kids, parent.list, parent, null, s) && Distinct(kids) && parent !in s
    modifies s
    ensures Linked(Flatten(kids), parent.list, parent, null, s)
  {
    hide Linked, Append, One, Nodes, Distinct;
    var menu := parent.list;
    ghost var r, todo, a, b := Nil, kids, {}, s;
    Empty(menu, parent);
    AppendNil(Flatten(kids));
    while menu != null
      invariant a == Nodes(r) && b == Nodes(todo) && a !! b && a + b == s
      invariant Linked(r, parent.list, parent, menu, a) && Linked(todo, menu, parent, null, b)
        && Apart(r, todo, {parent})
      invariant Flatten(kids) == Append(r, Flatten(todo))
      decreases Count(todo)
    {
      hide Flatten;
      Started(todo, menu, parent, b);
      r, todo := FlattenOne(menu, parent, r, todo, a, b);
      a, b := Nodes(r), Nodes(todo);
      menu := menu.next;
    }
    Ended(todo, parent, b);
    AppendNil(r);
  }

  /** menu_finalize, without choices, reverse dependencies and properties other than
      the prompt: the pointers are those of the tree that Final gives. */
  method Finalize(parent: Menu, ghost t: Forest, ghost above: Menu?, ghost s: set<Menu>)
    requires s == Nodes(t)
    requires t.Cons? && t.menu == parent && Linked(t, parent, above, null, s) && Distinct(t) && above !in s
    modifies s
    ensures Linked(Final(t), parent, above, null, s)
    decreases Count(t), 9
  {
    hide Linked, Append, One, Last, Flat, FlatBelow, Nodes, Pre, Distinct, Flatten, FinalAll, Take, Inherit, Guard;
    Unfold(t, above, s);
    InOrder(parent, t.info, t.kids, t.rest);
    assert t == Cons(parent, t.info, t.kids, t.rest);
    ghost var kids, rest, k, rr := t.kids, t.rest, Nodes(t.kids), Nodes(t.rest);
    if parent.list != null {
      var guard := Guard(parent, Info(parent.dep, parent.visible));
      InheritList(parent, guard, t.kids, k);
      kids := Inherit(t.kids, guard);
      InheritKeeps(t.kids, guard);
      FinalizeList(parent, kids, k);
      AllKeeps(kids);
      kids := FinalAll(kids);
      assert Linked(rest, parent.next, above, null, rr);
    } else if parent.sym.Some? {
      var base := if parent.prompted then parent.visible else None;
      Nest(parent, base, t.rest, above, rr);
      TakeKeeps(parent.sym.value, base, t.rest);
      kids, rest := Take(parent.sym.value, base, t.rest).0, Take(parent.sym.value, base, t.rest).1;
    }
    k, rr := Nodes(kids), Nodes(rest);
    NilParts();
    FlattenList(parent, kids, k);
    FlattenKeeps(kids);
    FlattenNil();
    assert Linked(rest, parent.next, above, null, rr);
    ghost var r := Cons(parent, t.info, Flatten(kids), rest);
    FinalLinked(r, parent.list, parent.next, above, k, rr, s);
  }

  lemma FlattenNil()
    ensures Flatten(Nil) == Nil
  {
  }

  lemma FinalLinked(r: Forest, list: Menu?, next: Menu?, above: Menu?, k: set<Menu>, rr: set<Menu>, s: set<Menu>)
    requires r.Cons? && r.menu.list == list && r.menu.next == next && r.menu.parent == above && r.menu in s
    requires r.info == Info(r.menu.dep, r.menu.visible)
    requires Linked(r.kids, list, r.menu, null, k) && Linked(r.rest, next, above, null, rr)
    requires Nodes(r.kids) <= s && Nodes(r.rest) <= s
    ensures Linked(r, r.menu, above, null, s)
  {
    LinkedIn(r.kids, list, r.menu, null, k, s);
    LinkedIn(r.rest, next, above, null, rr, s);
  }
}
