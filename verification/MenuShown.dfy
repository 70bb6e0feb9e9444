/** menu.c: when the entries of the finalized menu are shown. An entry in the list of
    another gets the condition of that one, and an entry after another goes below it only
    if it depends on it, so nothing is shown below what is hidden. */
module MenuShown {
  import opened Kconfig
  import opened Symbols
  import opened ExprTransform
  import opened ExprContradict
  import ExprExact
  import opened ExprGood
  import opened MenuDeps
  import opened Menus

  // ----- the conditions of one entry -----

  /** A missing condition is y. */
  function OptTri(v: Env, e: Option<Expr>): Tri { if e.None? then 2 else Value(v, e.value) }

  ghost predicate OptGood(v: Env, full: bool, e: Option<Expr>) { e.Some? ==> Good(v, full, e.value) }

  /** Nothing in a negation of the condition is m, and symbols compare as their values do. */
  ghost predicate OptRaw(v: Env, full: bool, e: Option<Expr>) {
    full && e.Some? ==> Comparable(v, e.value) && Steady(v, e.value)
  }

  lemma AllocAndMeans(v: Env, full: bool, a: Option<Expr>, b: Option<Expr>)
    ensures OptTri(v, AllocAnd(a, b)) == TriAnd(OptTri(v, a), OptTri(v, b))
    ensures OptGood(v, full, a) && OptGood(v, full, b) ==> OptGood(v, full, AllocAnd(a, b))
  {
  }

  lemma OptTransformMeans(v: Env, full: bool, e: Option<Expr>)
    requires Typed(v) && OptRaw(v, full, e)
    ensures OptTri(v, OptTransform(e)) == OptTri(v, e) && OptGood(v, full, OptTransform(e))
  {
    if e.Some? {
      TransformValue(v, e.value);
      TransformGood(v, full, e.value);
    }
  }

  /** y and n are kept, and what is m does not become anything that was n before. */
  lemma OptDupsMeans(v: Env, full: bool, e: Option<Expr>)
    requires Typed(v) && OptGood(v, full, e)
    ensures OptTri(v, e) != 1 ==> OptTri(v, OptDups(e)) == OptTri(v, e)
    ensures OptGood(v, full, OptDups(e))
  {
    hide EliminateDups;
    if e.Some? {
      if Value(v, e.value) != 1 { ExprExact.EliminateDupsDecided(v, e.value); }
      DupsGood(v, full, e.value);
    }
  }

  lemma OptBoolMeans(v: Env, full: bool, e: Option<Expr>)
    requires Typed(v) && OptGood(v, full, e)
    ensures OptTri(v, OptBool(e)) == 0 <==> OptTri(v, e) == 0
    ensures OptGood(v, full, OptBool(e))
  {
    if e.Some? {
      GoodMeans(v, full, e.value);
      TransBoolTruth(v, e.value);
      BoolGood(v, full, e.value);
    }
  }

  /** The condition of an entry together with that of the entry above it. */
  lemma JoinedMeans(v: Env, full: bool, above: Option<Expr>, e: Option<Expr>)
    requires Typed(v) && OptGood(v, full, above) && OptRaw(v, full, e)
    ensures var r := OptDups(AllocAnd(above, OptTransform(e))); var was := TriAnd(OptTri(v, above), OptTri(v, e));
      OptGood(v, full, r) && (was != 1 ==> OptTri(v, r) == was)
  {
    hide OptTransform, AllocAnd, OptDups, OptGood, OptTri;
    OptTransformMeans(v, full, e);
    AllocAndMeans(v, full, above, OptTransform(e));
    OptDupsMeans(v, full, AllocAnd(above, OptTransform(e)));
  }

  /** An entry in the list of another is shown only where that one is and where its own
      conditions hold; and where no condition is m, it is shown exactly there, and its
      new condition has the value of both. */
  lemma InheritedShown(v: Env, full: bool, m: Menu, info: Info, above: Option<Expr>)
    requires Typed(v) && OptGood(v, full, above) && OptRaw(v, full, info.dep)
    requires m.prompted ==> OptRaw(v, full, info.visible)
    ensures var r := Inherited(m, info, above);
      && (Holds(v, r.dep) ==> Holds(v, above) && Holds(v, info.dep))
      && (Holds(v, Guard(m, r)) ==> Holds(v, above) && Holds(v, info.dep) && Holds(v, Guard(m, info)))
      && OptGood(v, full, Guard(m, r))
      && (OptTri(v, above) != 1 && OptTri(v, info.dep) != 1 ==>
            OptTri(v, r.dep) == TriAnd(OptTri(v, above), OptTri(v, info.dep)))
      && (OptTri(v, above) != 1 && OptTri(v, info.dep) != 1 && OptTri(v, Guard(m, info)) != 1 ==>
            (Holds(v, Guard(m, r)) <==> Holds(v, above) && Holds(v, info.dep) && Holds(v, Guard(m, info))))
  {
    hide OptDups, AllocAnd, OptTransform, OptGood, OptRaw, OptBool;
    var dep := OptDups(AllocAnd(above, OptTransform(info.dep)));
    JoinedMeans(v, full, above, info.dep);
    if m.prompted {
      JoinedMeans(v, full, dep, info.visible);
      OptBoolMeans(v, full, OptDups(AllocAnd(dep, OptTransform(info.visible))));
    }
  }

  // ----- forests -----

  /** The conditions of entries that have not got those of the entry above yet. */
  ghost predicate Raw(v: Env, full: bool, f: Forest) {
    f.Cons? ==>
      && OptRaw(v, full, f.info.dep) && (f.menu.prompted ==> OptRaw(v, full, f.info.visible))
      && Raw(v, full, f.kids) && Raw(v, full, f.rest)
  }

  /** Entries side by side that have got it, and what is in their lists has not. */
  ghost predicate Ripe(v: Env, full: bool, f: Forest) {
    f.Cons? ==> OptGood(v, full, Guard(f.menu, f.info)) && Raw(v, full, f.kids) && Ripe(v, full, f.rest)
  }

  predicate ShownAt(v: Env, f: Forest)
    requires f.Cons?
  {
    Holds(v, Guard(f.menu, f.info))
  }

  /** None of the entries side by side is shown unless p. */
  ghost predicate TopOnly(v: Env, f: Forest, p: bool) {
    f.Cons? ==> (ShownAt(v, f) ==> p) && TopOnly(v, f.rest, p)
  }

  /** Nor is anything below them. */
  ghost predicate Only(v: Env, f: Forest, p: bool) {
    f.Cons? ==> (ShownAt(v, f) ==> p) && Only(v, f.kids, p) && Only(v, f.rest, p)
  }

  lemma {:induction false} TopWeaker(v: Env, f: Forest, p: bool, q: bool)
    requires TopOnly(v, f, p) && (p ==> q)
    ensures TopOnly(v, f, q)
  {
    if f.Cons? { TopWeaker(v, f.rest, p, q); }
  }

  lemma {:induction false} AppendOnly(v: Env, f: Forest, g: Forest, p: bool)
    ensures Only(v, Append(f, g), p) <==> Only(v, f, p) && Only(v, g, p)
  {
    if f.Cons? { AppendOnly(v, f.rest, g, p); }
  }

  /** Passing the condition of an entry on to its list. */
  lemma {:induction false} InheritShown(v: Env, full: bool, f: Forest, above: Option<Expr>)
    requires Typed(v) && Raw(v, full, f) && OptGood(v, full, above)
    ensures Ripe(v, full, Inherit(f, above)) && TopOnly(v, Inherit(f, above), Holds(v, above))
  {
    hide Inherited, OptGood, Holds;
    if f.Cons? {
      InheritedShown(v, full, f.menu, f.info, above);
      InheritShown(v, full, f.rest, above);
    }
  }

  lemma {:induction false} FlattenOnly(v: Env, f: Forest, p: bool)
    requires Only(v, f, p)
    ensures Only(v, Flatten(f), p)
    decreases Count(f)
  {
    hide Holds;
    if f.Cons? {
      AppendCount(f.kids, f.rest);
      AppendOnly(v, f.kids, f.rest, p);
      if f.kids.Cons? && !f.menu.titled {
        FlattenOnly(v, Append(f.kids, f.rest), p);
      } else {
        FlattenOnly(v, f.rest, p);
      }
    }
  }

  lemma {:induction false} FinalOnly(v: Env, full: bool, t: Forest, p: bool)
    requires t.Cons? && Typed(v) && Ripe(v, full, t) && TopOnly(v, t, p)
    ensures var r := Final(t); r.info == t.info && Only(v, r.kids, p) && TopOnly(v, r.rest, p) && Ripe(v, full, r.rest)
    ensures t.kids.Cons? ==> Only(v, Final(t).kids, ShownAt(v, t))
    decreases Count(t), 0
  {
    hide Inherited, Belongs, OptGood, Flatten, Inherit, Raw;
    if t.kids.Cons? {
      var above := Guard(t.menu, t.info);
      var kids := Inherit(t.kids, above);
      InheritShown(v, full, t.kids, above);
      AllOnly(v, full, kids, ShownAt(v, t));
      FlattenOnly(v, FinalAll(kids), ShownAt(v, t));
      TopWeaker(v, kids, ShownAt(v, t), p);
      AllOnly(v, full, kids, p);
      FlattenOnly(v, FinalAll(kids), p);
    } else if t.menu.sym.Some? {
      var base := if t.menu.prompted then t.info.visible else None;
      TakeOnly(v, full, t.menu.sym.value, base, t.rest, p);
      FlattenOnly(v, Take(t.menu.sym.value, base, t.rest).0, p);
    }
  }

  lemma {:induction false} AllOnly(v: Env, full: bool, f: Forest, p: bool)
    requires Typed(v) && Ripe(v, full, f) && TopOnly(v, f, p)
    ensures Only(v, FinalAll(f), p)
    decreases Count(f), 1
  {
    hide Final, Holds;
    if f.Cons? {
      FinalOnly(v, full, f, p);
      SameShown(v, f, Final(f));
      AllOnly(v, full, Final(f).rest, p);
    }
  }

  lemma SameShown(v: Env, f: Forest, g: Forest)
    requires f.Cons? && g.Cons? && f.menu == g.menu && f.info == g.info
    ensures ShownAt(v, f) == ShownAt(v, g)
  {
  }

  lemma {:induction false} TakeOnly(v: Env, full: bool, s: Symbol, base: Option<Expr>, f: Forest, p: bool)
    requires Typed(v) && Ripe(v, full, f) && TopOnly(v, f, p)
    ensures var r := Take(s, base, f); Only(v, r.0, p) && TopOnly(v, r.1, p) && Ripe(v, full, r.1)
    decreases Count(f), 1
  {
    hide Final, Holds, Belongs;
    if f.Cons? && Belongs(s, base, Guard(f.menu, f.info)) {
      FinalOnly(v, full, f, p);
      SameShown(v, f, Final(f));
      TakeOnly(v, full, s, base, Final(f).rest, p);
    }
  }

  /** Nothing that was in the list of an entry, however deep, is shown in the finalized
      menu where that entry is hidden. */
  lemma HiddenBelow(v: Env, t: Forest)
    requires t.Cons? && t.kids.Cons? && Typed(v) && Ripe(v, false, t) && !ShownAt(v, t)
    ensures Only(v, Final(t).kids, false)
  {
    hide Final, Ripe, ShownAt;
    AlwaysTop(v, t);
    FinalOnly(v, false, t, true);
  }

  lemma {:induction false} AlwaysTop(v: Env, f: Forest)
    ensures TopOnly(v, f, true)
  {
    if f.Cons? { AlwaysTop(v, f.rest); }
  }

  /** All of these belong below an entry with symbol s. */
  ghost predicate AllBelong(s: Symbol, base: Option<Expr>, f: Forest) {
    f.Cons? ==> Belongs(s, base, Guard(f.menu, f.info)) && AllBelong(s, base, f.rest)
  }

  /** The entries taken belong there, and the first of the others does not. */
  lemma {:induction false} TakeLongest(s: Symbol, base: Option<Expr>, f: Forest)
    ensures var r := Take(s, base, f);
      AllBelong(s, base, r.0) && (r.1.Cons? ==> !Belongs(s, base, Guard(r.1.menu, r.1.info)))
    decreases Count(f)
  {
    hide Belongs, Guard, Final;
    if f.Cons? && Belongs(s, base, Guard(f.menu, f.info)) {
      FinalInfo(f);
      TakeLongest(s, base, Final(f).rest);
    }
  }

  lemma FinalInfo(t: Forest)
    requires t.Cons?
    ensures Final(t).info == t.info
  {
    hide Inherit, FinalAll, Flatten, Take;
  }

  // ----- entries nested below one that they depend on -----

  /** n, for a symbol that compares as its value does. */
  predicate IsN(v: Env, s: Symbol) { v.tri(s) == 0 && v.str(s) == "n" }

  /** The entry is shown, or its symbol is not n.  The condition of an entry with a symbol
      but without a prompt is not looked at when others are put below it; it has no title,
      and they do not stay there. */
  predicate OpenAt(v: Env, f: Forest)
    requires f.Cons?
  {
    ShownAt(v, f) || (f.menu.sym.Some? && (!f.menu.prompted || !IsN(v, f.menu.sym.value)))
  }

  /** The entries side by side are shown only if p, or if an entry before them without a
      title is open, which they may have been below; and what is below an entry is shown
      only if that entry is open. */
  ghost predicate Nested(v: Env, f: Forest, p: bool) {
    f.Cons? ==>
      && (ShownAt(v, f) ==> p) && Nested(v, f.kids, OpenAt(v, f))
      && Nested(v, f.rest, p || (!f.menu.titled && OpenAt(v, f)))
  }

  lemma {:induction false} NestedWeaker(v: Env, f: Forest, p: bool, q: bool)
    requires Nested(v, f, p) && (p ==> q)
    ensures Nested(v, f, q)
  {
    hide ShownAt, OpenAt;
    if f.Cons? {
      NestedWeaker(v, f.rest, p || (!f.menu.titled && OpenAt(v, f)), q || (!f.menu.titled && OpenAt(v, f)));
    }
  }

  lemma {:induction false} AppendNested(v: Env, f: Forest, g: Forest, p: bool)
    requires Nested(v, f, p) && Nested(v, g, p)
    ensures Nested(v, Append(f, g), p)
  {
    hide Holds, IsN;
    if f.Cons? {
      NestedWeaker(v, g, p, p || (!f.menu.titled && OpenAt(v, f)));
      AppendNested(v, f.rest, g, p || (!f.menu.titled && OpenAt(v, f)));
    }
  }

  lemma {:induction false} FlattenNested(v: Env, f: Forest, p: bool)
    requires Nested(v, f, p)
    ensures Nested(v, Flatten(f), p)
    decreases Count(f)
  {
    hide ShownAt, OpenAt;
    if f.Cons? {
      var q := p || (!f.menu.titled && OpenAt(v, f));
      AppendCount(f.kids, f.rest);
      if f.kids.Cons? && !f.menu.titled {
        NestedWeaker(v, f.kids, OpenAt(v, f), q);
        AppendNested(v, f.kids, f.rest, q);
        FlattenNested(v, Append(f.kids, f.rest), q);
        FlattenMoved(v, f, p);
      } else {
        FlattenNested(v, f.rest, q);
        FlattenStays(v, f, p);
      }
    }
  }

  lemma FlattenMoved(v: Env, f: Forest, p: bool)
    requires f.Cons? && f.kids.Cons? && !f.menu.titled && (ShownAt(v, f) ==> p)
    requires Nested(v, Flatten(Append(f.kids, f.rest)), p || OpenAt(v, f))
    ensures Nested(v, Flatten(f), p)
  {
    AppendCount(f.kids, f.rest);
  }

  lemma FlattenStays(v: Env, f: Forest, p: bool)
    requires f.Cons? && (f.kids.Nil? || f.menu.titled) && (ShownAt(v, f) ==> p) && Nested(v, f.kids, OpenAt(v, f))
    requires Nested(v, Flatten(f.rest), p || (!f.menu.titled && OpenAt(v, f)))
    ensures Nested(v, Flatten(f), p)
  {
  }

  /** An entry that is put below another is shown only where that one is open. */
  lemma BelongsOpen(v: Env, t: Forest, dep: Option<Expr>)
    requires Typed(v) && t.Cons? && t.menu.sym.Some?
    requires OptGood(v, true, Guard(t.menu, t.info)) && OptGood(v, true, dep)
    requires Belongs(t.menu.sym.value, if t.menu.prompted then t.info.visible else None, dep)
    ensures Holds(v, dep) ==> OpenAt(v, t)
  {
    hide Belongs, Good;
    if Holds(v, dep) && t.menu.prompted && IsN(v, t.menu.sym.value) {
      assert dep.Some? by { BelongsSome(t.menu.sym.value, t.info.visible, dep); }
      GoodMeans(v, true, dep.value);
      if t.info.visible.Some? { GoodMeans(v, true, t.info.visible.value); }
      BelongsShown(v, t.menu.sym.value, t.info.visible, dep);
    }
  }

  lemma BelongsSome(s: Symbol, base: Option<Expr>, dep: Option<Expr>)
    requires Belongs(s, base, dep)
    ensures dep.Some?
  {
  }

  lemma {:induction false} FinalNested(v: Env, t: Forest)
    requires t.Cons? && Typed(v) && Ripe(v, true, t)
    ensures Nested(v, Final(t).kids, OpenAt(v, t)) && Ripe(v, true, Final(t).rest)
    decreases Count(t), 0
  {
    hide Inherited, Belongs, OptGood, Flatten, Inherit, Raw, IsN;
    if t.kids.Cons? {
      var above := Guard(t.menu, t.info);
      var kids := Inherit(t.kids, above);
      InheritShown(v, true, t.kids, above);
      AllNested(v, kids, ShownAt(v, t));
      FlattenNested(v, FinalAll(kids), ShownAt(v, t));
      NestedWeaker(v, Flatten(FinalAll(kids)), ShownAt(v, t), OpenAt(v, t));
    } else if t.menu.sym.Some? {
      var base := if t.menu.prompted then t.info.visible else None;
      TakeNested(v, t, base, t.rest);
      FlattenNested(v, Take(t.menu.sym.value, base, t.rest).0, OpenAt(v, t));
    }
  }

  lemma {:induction false} AllNested(v: Env, f: Forest, p: bool)
    requires Typed(v) && Ripe(v, true, f) && TopOnly(v, f, p)
    ensures Nested(v, FinalAll(f), p)
    decreases Count(f), 1
  {
    hide Final, ShownAt, OpenAt;
    if f.Cons? {
      var t := Final(f);
      FinalNested(v, f);
      FinalOnly(v, true, f, p);
      SameShown(v, f, t);
      SameOpen(v, f, t);
      AllNested(v, t.rest, p);
      NestedWeaker(v, FinalAll(t.rest), p, p || (!t.menu.titled && OpenAt(v, t)));
      PutNested(v, t, t.kids, FinalAll(t.rest), p);
    }
  }

  lemma PutNested(v: Env, t: Forest, kids: Forest, rest: Forest, p: bool)
    requires t.Cons? && (ShownAt(v, t) ==> p) && Nested(v, kids, OpenAt(v, t))
    requires Nested(v, rest, p || (!t.menu.titled && OpenAt(v, t)))
    ensures Nested(v, Cons(t.menu, t.info, kids, rest), p)
  {
  }

  lemma SameOpen(v: Env, f: Forest, g: Forest)
    requires f.Cons? && g.Cons? && f.menu == g.menu && f.info == g.info
    ensures OpenAt(v, f) == OpenAt(v, g)
  {
  }

  lemma {:induction false} TakeNested(v: Env, t: Forest, base: Option<Expr>, f: Forest)
    requires t.Cons? && Typed(v) && t.menu.sym.Some? && OptGood(v, true, Guard(t.menu, t.info)) && Ripe(v, true, f)
    requires base == if t.menu.prompted then t.info.visible else None
    ensures var r := Take(t.menu.sym.value, base, f); Nested(v, r.0, OpenAt(v, t)) && Ripe(v, true, r.1)
    decreases Count(f), 1
  {
    hide Final, OpenAt, Belongs, OptGood;
    var s, p := t.menu.sym.value, OpenAt(v, t);
    if f.Cons? && Belongs(s, base, Guard(f.menu, f.info)) {
      var g := Final(f);
      BelongsOpen(v, t, Guard(f.menu, f.info));
      FinalNested(v, f);
      AlwaysTop(v, f);
      FinalOnly(v, true, f, true);
      SameShown(v, f, g);
      SameOpen(v, f, g);
      TakeNested(v, t, base, g.rest);
      NestedWeaker(v, Take(s, base, g.rest).0, p, p || (!g.menu.titled && OpenAt(v, g)));
      PutNested(v, g, g.kids, Take(s, base, g.rest).0, p);
    }
  }
}
