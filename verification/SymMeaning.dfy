/** symbol.c: what the values of a configuration are, said of its properties and not of
    the order in which they are gone through: the greatest visibility of the prompts, the
    first default that applies, and how the value set by the user, the default and what
    selects the symbol come together. */
module SymMeaning {
  import opened Kconfig
  import opened Symbols
  import opened SymValues

  // ----- prompts -----

  /** No prompt is more visible, and if there is any visible one, some prompt is as visible. */
  ghost predicate Greatest(env: Env, props: seq<Property>, t: Tri) {
    && (forall p :: p in props && p.Prompt? ==> OptValue(env, p.visible) <= t)
    && (t != 0 ==> exists p :: p in props && p.Prompt? && OptValue(env, p.visible) == t)
  }

  lemma {:induction false} PromptGreatest(env: Env, props: seq<Property>, n: nat)
    requires n <= |props|
    ensures Greatest(env, props[..n], PromptTri(env, props, n))
  {
    if n > 0 {
      PromptGreatest(env, props, n - 1);
      var a, b := props[..n - 1], props[..n];
      assert b == a + [props[n - 1]];
      var t, u := PromptTri(env, props, n - 1), PromptTri(env, props, n);
      assert forall p :: p in a ==> p in b;
      assert props[n - 1] in b;
      if u == t && t != 0 {
        var p :| p in a && p.Prompt? && OptValue(env, p.visible) == t;
        assert p in b;
      }
    }
  }

  lemma GreatestOnce(env: Env, props: seq<Property>, t: Tri, u: Tri)
    requires Greatest(env, props, t) && Greatest(env, props, u)
    ensures t == u
  {
  }

  /** A visibility is the greatest exactly if it is what the prompts are gone through for. */
  lemma PromptIs(env: Env, props: seq<Property>, t: Tri)
    ensures PromptTri(env, props, |props|) == t <==> Greatest(env, props, t)
  {
    hide Greatest;
    assert props[..|props|] == props;
    PromptGreatest(env, props, |props|);
    if Greatest(env, props, t) { GreatestOnce(env, props, t, PromptTri(env, props, |props|)); }
  }

  /** The order of the properties does not matter for the visibility. */
  lemma PromptOrder(env: Env, props: seq<Property>, others: seq<Property>)
    requires multiset(props) == multiset(others)
    ensures PromptTri(env, props, |props|) == PromptTri(env, others, |others|)
  {
    forall p
      ensures p in props <==> p in others
    {
      assert p in props <==> p in multiset(props);
    }
    PromptIs(env, props, PromptTri(env, props, |props|));
    PromptIs(env, others, PromptTri(env, props, |props|));
  }

  // ----- the first property that is visible -----

  ghost predicate Shown(env: Env, p: Property) { OptValue(env, p.visible) != 0 }

  /** The k-th property is a default (a range) that is shown, and none before it is. */
  ghost predicate FirstShown(env: Env, props: seq<Property>, default: bool, k: nat) {
    && k < |props| && (if default then props[k].Default? else props[k].Range?) && Shown(env, props[k])
    && forall j :: 0 <= j < k && (if default then props[j].Default? else props[j].Range?) ==> !Shown(env, props[j])
  }

  ghost predicate NoneShown(env: Env, props: seq<Property>, default: bool) {
    forall p :: p in props && (if default then p.Default? else p.Range?) ==> !Shown(env, p)
  }

  lemma {:induction false} FirstAfter(env: Env, props: seq<Property>, default: bool, i: nat)
    requires i <= |props|
    ensures forall j :: i <= j < First(env, props, default, i) ==> !Applies(env, props[j], default)
    decreases |props| - i
  {
    if i < |props| && !Applies(env, props[i], default) { FirstAfter(env, props, default, i + 1); }
  }

  /** The property that is chosen is the first that is shown, and it is none exactly if
      none is shown. */
  lemma FirstIs(env: Env, props: seq<Property>, default: bool, k: nat)
    ensures First(env, props, default, 0) == k < |props| <==> FirstShown(env, props, default, k)
    ensures First(env, props, default, 0) == |props| <==> NoneShown(env, props, default)
  {
    FirstAfter(env, props, default, 0);
    var f := First(env, props, default, 0);
    if f < |props| {
      assert props[f] in props && Applies(env, props[f], default);
    } else {
      forall p | p in props
        ensures !Applies(env, p, default)
      {
        var j :| 0 <= j < |props| && props[j] == p;
      }
    }
    assert f < |props| ==> Applies(env, props[f], default);
  }

  // ----- boolean and tristate symbols -----

  /** Tristate symbols are boolean if there are no modules. */
  predicate TwoWay(c: Context, s: Symbol) { s.Type() == Boolean || (s.Type() == Tristate && c.modules == 0) }

  /** A symbol with two values is y as soon as it is not n. */
  predicate Comes(c: Context, s: Symbol, got: Tri, t: Tri) {
    if TwoWay(c, s) then got == if t != 0 then 2 else 0 else got == t
  }

  /** The selecting condition, n if there is none. */
  function Selecting(c: Context, v: Assignment, s: Symbol): Tri {
    var e := Def(c.config, s).revDep; if e.None? then 0 else OptValue(c.Env(v), e)
  }

  ghost predicate Visibility(c: Context, v: Assignment, s: Symbol, t: Tri) {
    Greatest(c.Env(v), Def(c.config, s).props, t)
  }

  /** The value of a boolean or tristate symbol is at least what selects it. Where a prompt
      is visible and the user has set the symbol, it is that value, cut down to the greatest
      visibility, unless selected higher; otherwise the first default that is shown counts,
      cut down to its visibility, and n if there is none. */
  lemma TriMeans(c: Context, v: Assignment, s: Symbol, t: Tri, k: nat)
    requires Solves(c, v) && IsTri(s) && Visibility(c, v, s, t)
    ensures var got, sel, props := v(s).tri, Selecting(c, v, s), Def(c.config, s).props;
      && got >= sel && (TwoWay(c, s) ==> got != 1)
      && (t != 0 && s in c.user ==> Comes(c, s, got, TriOr(TriAnd(c.user[s].tri, t), sel)))
      && (t == 0 || s !in c.user ==>
            && (FirstShown(c.Env(v), props, true, k) ==>
                  Comes(c, s, got,
                    TriOr(TriAnd(Value(c.Env(v), props[k].e), OptValue(c.Env(v), props[k].visible)), sel)))
            && (NoneShown(c.Env(v), props, true) ==> Comes(c, s, got, sel)))
  {
    hide Greatest, FirstShown, NoneShown, First, PromptTri, Value;
    var env, props := c.Env(v), Def(c.config, s).props;
    PromptIs(env, props, t);
    FirstIs(env, props, true, k);
    assert v(s) == Eval(c, v, s);
  }

  /** A value that the user has set within what selects and what shows the symbol is the
      value of the symbol, unless it is m and there are two values only. */
  lemma UserGets(c: Context, v: Assignment, s: Symbol, t: Tri)
    requires Solves(c, v) && IsTri(s) && Visibility(c, v, s, t) && s in c.user
    requires t != 0 && Selecting(c, v, s) <= c.user[s].tri <= t
    ensures v(s).tri == c.user[s].tri <==> !(TwoWay(c, s) && c.user[s].tri == 1)
  {
    hide Visibility, Solves, Selecting, FirstShown, NoneShown;
    TriMeans(c, v, s, t, 0);
  }

  // ----- which values can be set -----

  /** Once the user has set the symbol to val, val is its value. */
  ghost predicate Settable(c: Context, rank: Rank, s: Symbol, val: Tri) {
    Solution(SetTo(c, s, val), rank)(s).tri == val
  }

  lemma SettableIs(c: Context, rank: Rank, v: Assignment, s: Symbol, val: Tri)
    requires Ranked(c.config, c.modulesSym, rank) && Solves(c, v) && IsTri(s)
    ensures var visible, rev := VisibleTri(c, v, s), RevTri(c, v, s);
      Settable(c, rank, s, val) <==>
        if visible == 0 then v(s).tri == val
        else Promote(EffectiveType(c.modules, s) == Boolean, TriOr(TriAnd(val, visible), rev)) == val
  {
    hide VisibleTri, RevTri, Solves, Ranked, Solution;
    SolutionSolves(SetTo(c, s, val), rank);
    SetValue(c, s, val, rank, v, Solution(SetTo(c, s, val), rank));
  }

  /** sym_tristate_within_range allows a value if and only if there is a choice: it would be
      the value of the symbol, and so would another one. */
  lemma WithinExactly(c: Context, rank: Rank, v: Assignment, s: Symbol, val: Tri)
    requires Ranked(c.config, c.modulesSym, rank) && Solves(c, v) && IsTri(s)
    ensures WithinRange(c, v, s, val) <==>
      Settable(c, rank, s, val) && exists u: Tri :: u != val && Settable(c, rank, s, u)
  {
    hide Settable, Solves, Ranked, VisibleTri, RevTri;
    SettableIs(c, rank, v, s, 0);
    SettableIs(c, rank, v, s, 1);
    SettableIs(c, rank, v, s, 2);
    if EffectiveType(c.modules, s) == Boolean { SidesPromoted(c, v, s); }
  }

  /** Without m, neither the visibility nor the selection is m. */
  lemma SidesPromoted(c: Context, v: Assignment, s: Symbol)
    requires IsTri(s) && EffectiveType(c.modules, s) == Boolean
    ensures VisibleTri(c, v, s) != 1 && RevTri(c, v, s) != 1
  {
    hide PromptTri;
  }

  // ----- int, hex and string symbols -----

  /** The text set by the user where a prompt is visible, otherwise that of the symbol which
      the first default that is shown names, otherwise none. */
  lemma TextMeans(c: Context, v: Assignment, s: Symbol, t: Tri, k: nat)
    requires Visibility(c, v, s, t)
    ensures var text, props := TextOf(c, v, s), Def(c.config, s).props;
      && (t != 0 && s in c.user ==> text == c.user[s].text)
      && (t == 0 || s !in c.user ==>
            && (FirstShown(c.Env(v), props, true, k) ==>
                  text == if props[k].e.Sym? then v(props[k].e.sym).text else "")
            && (NoneShown(c.Env(v), props, true) ==> text == ""))
  {
    hide Greatest, FirstShown, NoneShown, First, PromptTri, Value;
    var env, props := c.Env(v), Def(c.config, s).props;
    PromptIs(env, props, t);
    FirstIs(env, props, true, k);
  }

  /** What is printed is read back, as decimal for 10 and as hexadecimal for 16. */
  ghost predicate ReadsBack(l: Lib) {
    forall x: int :: l.strtol(l.dec(x), 10) == x && l.strtol(l.hex(x), 16) == x
  }

  function Distance(x: int, y: int): int { if x < y then y - x else x - y }

  /** The number that a bound stands for, in the base of its type, or else of the symbol. */
  function Bound(l: Lib, b: Symbol, text: string, base: int): int {
    match b.Type()
    case Int => l.strtol(text, 10)
    case Hex => l.strtol(text, 16)
    case _ => l.strtol(text, base)
  }

  /** An int or hex symbol under a range: text inside the bounds stays, and other text becomes
      the number inside the bounds that is nearest. */
  lemma RangeMeans(c: Context, v: Assignment, s: Symbol, text: string, k: nat)
    requires ReadsBack(c.lib) && (s.Type() == Int || s.Type() == Hex)
    requires FirstShown(c.Env(v), Def(c.config, s).props, false, k)
    ensures var p, base := Def(c.config, s).props[k], if s.Type() == Int then 10 else 16;
      var low, high := Bound(c.lib, p.lo, v(p.lo).text, base), Bound(c.lib, p.hi, v(p.hi).text, base);
      var was, r := c.lib.strtol(text, base), InRange(c, v, s, text);
      && (low <= was <= high ==> r == text)
      && (low <= high ==> low <= c.lib.strtol(r, base) <= high)
      && (low <= high ==> forall x :: low <= x <= high ==> Distance(was, c.lib.strtol(r, base)) <= Distance(was, x))
  {
    FirstIs(c.Env(v), Def(c.config, s).props, false, k);
  }

  /** Without a range that is shown, and for strings, nothing is looked at. */
  lemma NoRange(c: Context, v: Assignment, s: Symbol, text: string)
    requires s.Type() == String || NoneShown(c.Env(v), Def(c.config, s).props, false)
    ensures InRange(c, v, s, text) == text
  {
    FirstIs(c.Env(v), Def(c.config, s).props, false, 0);
  }

  // ----- what is saved -----

  /** A symbol that is not to be saved, though it may be, has the value that a symbol has of
      which nothing is known. */
  lemma UnwrittenEmpty(c: Context, v: Assignment, s: Symbol)
    requires Solves(c, v) && !Written(c, v, s) && s !in c.auto
    ensures IsTri(s) ==> v(s).tri == 0
    ensures IsText(s) ==> TextOf(c, v, s) == ""
  {
    hide First, PromptTri, Value;
    assert v(s) == Eval(c, v, s);
  }
}
