/** A configuration that is written to a file and read back. */
module Saving {
  import opened Kconfig
  import opened Symbols
  import opened SymValues
  import opened Confdata

  /** A value that is set again by the user stays what it is. */
  predicate Keeps(c: Context, v: Assignment, s: Symbol) {
    var visible := VisibleTri(c, v, s);
    || visible == 0
    || (IsTri(s) && (v(s).tri <= visible || v(s).tri == RevTri(c, v, s)))
    || (IsText(s) && InRange(c, v, s, v(s).text) == v(s).text)
  }

  /** All symbols that are shown have their values in user. */
  ghost predicate Saved(c: Context, v: Assignment, user: User) {
    forall s :: (IsTri(s) || IsText(s)) && VisibleTri(c, v, s) != 0 ==> s in user && AsSaved(v, s, user[s])
  }

  predicate AsSaved(v: Assignment, s: Symbol, val: Val) {
    if IsTri(s) then val.tri == v(s).tri else val.text == v(s).text
  }

  /** The equation of one symbol with the saved values in place of the user's own. */
  lemma EvalSaved(c: Context, v: Assignment, user: User, s: Symbol)
    requires Solves(c, v) && Saved(c, v, user)
    ensures Eval(c.(user := user), v, s) == v(s) <==> !(IsTri(s) || IsText(s)) || Keeps(c, v, s)
  {
    var d := c.(user := user);
    assert v(s) == Eval(c, v, s);
    assert VisibleTri(d, v, s) == VisibleTri(c, v, s) && RevTri(d, v, s) == RevTri(c, v, s);
    if IsText(s) {
      var k := TextOf(d, v, s);
      assert InRange(d, v, s, k) == InRange(c, v, s, k) by { ClampSame(c, d, v, s, k); }
    }
  }

  lemma ClampSame(c: Context, d: Context, v: Assignment, s: Symbol, text: string)
    requires d == c.(user := d.user)
    ensures InRange(d, v, s, text) == InRange(c, v, s, text)
  {
  }

  /** Loading the values that were saved gives back every value, if and only if each
      symbol that is shown keeps its value when the user sets it again. */
  lemma SaveLoad(c: Context, rank: Rank, v: Assignment, user: User, w: Assignment)
    requires Ranked(c.config, c.modulesSym, rank) && Solves(c, v) && Solves(c.(user := user), w)
    requires Saved(c, v, user)
    ensures (forall s :: w(s) == v(s)) <==> forall s :: IsTri(s) || IsText(s) ==> Keeps(c, v, s)
  {
    hide Eval, Keeps, Saved;
    var d := c.(user := user);
    if forall s :: w(s) == v(s) {
      SolutionTwoValued(c, v);
      SolutionTwoValued(d, w);
      forall s | IsTri(s) || IsText(s) ensures Keeps(c, v, s) {
        EvalSame(d, Pair(rank, rank(s), v, w), s);
        EvalSaved(c, v, user, s);
      }
    }
    if forall s :: IsTri(s) || IsText(s) ==> Keeps(c, v, s) {
      forall s ensures v(s) == Eval(d, v, s) { EvalSaved(c, v, user, s); }
      Unique(d, rank, v, w);
    }
  }

  /** The value of a symbol as it is in the file. */
  function InFile(v: Assignment, s: Symbol): Val {
    if IsTri(s) then Val(v(s).tri, "") else Val(0, v(s).text)
  }

  function Items(v: Assignment, syms: seq<Symbol>): seq<Item> {
    seq(|syms|, i requires 0 <= i < |syms| => Setting(syms[i], InFile(v, syms[i])))
  }

  lemma {:induction false} SettingsHave(v: Assignment, syms: seq<Symbol>, user: User)
    ensures var r := Settings(user, Items(v, syms));
            forall s :: s in syms || (s in user && user[s] == InFile(v, s)) ==> s in r && r[s] == InFile(v, s)
    decreases |syms|
  {
    if syms != [] {
      var more := user[syms[0] := InFile(v, syms[0])];
      assert Items(v, syms)[1..] == Items(v, syms[1..]);
      SettingsHave(v, syms[1..], more);
      forall s | s in syms || (s in user && user[s] == InFile(v, s))
        ensures s in syms[1..] || (s in more && more[s] == InFile(v, s))
      {
        if s in syms && s != syms[0] { assert s in syms[1..]; }
      }
    }
  }

  /** The string that conf_write_symbol prints is that of the value in the file. */
  lemma PrintedText(c: Context, v: Assignment, s: Symbol)
    requires Solves(c, v) && v(c.modulesSym).tri == c.modules
    ensures IsTri(s) ==> Text(c.modulesSym, v, s) == ValueText(s, InFile(v, s))
    ensures s.Type() == String ==> ValueText(s, InFile(v, s)) == ['"'] + Escape(Text(c.modulesSym, v, s)) + ['"']
    ensures s.Type() == Int || s.Type() == Hex ==> Text(c.modulesSym, v, s) == ValueText(s, InFile(v, s))
  {
    assert v(s) == Eval(c, v, s);
  }

  /** Writing the configuration to a file, with every symbol that is shown, reading
      the file and calculating again gives the same values, if and only if every
      symbol that is shown keeps its value when it is set again. */
  lemma WriteRead(c: Context, rank: Rank, v: Assignment, table: Table, syms: seq<Symbol>, w: Assignment)
    requires Ranked(c.config, c.modulesSym, rank) && Solves(c, v)
    requires forall s :: (IsTri(s) || IsText(s)) && VisibleTri(c, v, s) != 0 ==> s in syms
    requires AllReadable(table, Items(v, syms))
    requires Solves(c.(user := ReadFile(table, map[], FileText(Items(v, syms)))), w)
    ensures (forall s :: w(s) == v(s)) <==> forall s :: IsTri(s) || IsText(s) ==> Keeps(c, v, s)
  {
    hide Eval, Keeps, Settings, FileText, ReadFile, VisibleTri, Items;
    var user := ReadFile(table, map[], FileText(Items(v, syms)));
    FileRoundTrip(table, map[], Items(v, syms));
    SettingsHave(v, syms, map[]);
    assert Saved(c, v, user);
    SaveLoad(c, rank, v, user, w);
  }
}
