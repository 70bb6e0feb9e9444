/** confdata.c: the walk of conf_write over the menu tree. */
module MenuWalk {
  import opened Kconfig
  import opened Symbols
  import opened Menus

  /** The way from the root to an entry: each entry above it, with those after that. */
  datatype Path = Top | Step(menu: Menu, rest: Forest, up: Path)

  ghost predicate Up(p: Path, parent: Menu, root: Menu, s: set<Menu>)
    reads s, root
  {
    match p
    case Top => parent == root
    case Step(m, rest, up) =>
      && m == parent && m in s && m.parent != null
      && Linked(rest, m.next, m.parent, null, s) && Up(up, m.parent, root, s)
  }

  /** What comes after everything below an entry. */
  function Later(p: Path): seq<Menu> {
    match p
    case Top => []
    case Step(_, rest, up) => Pre(rest) + Later(up)
  }

  /** The symbols of some entries that are to be written, each once, where it is met
      first. */
  function FirstTimes(ms: seq<Menu>, flags: set<Symbol>, n: nat): seq<Symbol>
    requires n <= |ms|
  {
    if n == 0 then []
    else
      var before := FirstTimes(ms, flags, n - 1);
      var s := ms[n - 1].sym;
      if s.Some? && s.value in flags && s.value !in before then before + [s.value] else before
  }

  /** Every symbol to be written that has an entry is among them, and none twice. */
  lemma {:induction false} FirstTimesOnce(ms: seq<Menu>, flags: set<Symbol>, n: nat)
    requires n <= |ms|
    ensures var r := FirstTimes(ms, flags, n);
            && (forall i, j :: 0 <= i < j < |r| ==> r[i] != r[j])
            && forall s :: s in r <==> s in flags && exists k :: 0 <= k < n && ms[k].sym == Some(s)
  {
    if n > 0 {
      FirstTimesOnce(ms, flags, n - 1);
      var before, r := FirstTimes(ms, flags, n - 1), FirstTimes(ms, flags, n);
      forall s ensures s in r <==> s in flags && exists k :: 0 <= k < n && ms[k].sym == Some(s) {
        if s in flags && ms[n - 1].sym == Some(s) && r != before {
          assert r[|r| - 1] == s;
        }
      }
    }
  }

  lemma {:induction false} FirstTimesSame(ms: seq<Menu>, more: seq<Menu>, flags: set<Symbol>, n: nat)
    requires n <= |ms| && n <= |more| && ms[..n] == more[..n]
    ensures FirstTimes(ms, flags, n) == FirstTimes(more, flags, n)
  {
    if n > 0 {
      assert ms[..n][n - 1] == more[..n][n - 1];
      assert ms[..n][..n - 1] == ms[..n - 1] && more[..n][..n - 1] == more[..n - 1];
      FirstTimesSame(ms, more, flags, n - 1);
    }
  }

  /** The next entry after everything below parent: up until there is one. */
  method Climb(parent: Menu, root: Menu, ghost path: Path, ghost s: set<Menu>)
      returns (menu: Menu?, ghost cur: Forest, ghost above: Menu, ghost up: Path)
    requires Up(path, parent, root, s) && root.parent == null && root.next == null
    ensures Up(up, above, root, s) && Pre(cur) + Later(up) == Later(path)
    ensures if menu == null then Later(path) == [] else Linked(cur, menu, above, null, s)
  {
    above, up, cur := parent, path, Nil;
    menu := parent;
    while menu != null && menu.next == null
      invariant menu != null ==> menu == above && Up(up, menu, root, s) && Later(up) == Later(path)
      invariant menu == null ==> up == Top && above == root && Later(path) == []
      decreases up, menu != null
    {
      menu := menu.parent;
      if up.Step? {
        assert Pre(up.rest) == [];
        above, up := menu, up.up;
      }
    }
    if menu != null {
      cur := up.rest;
      above, up := menu.parent, up.up;
      menu := menu.next;
    }
  }

  /** From an entry the walk goes on to what is below it, or else after it, or else
      after what is above it. */
  lemma Onward(cur: Forest, menu: Menu, above: Menu, root: Menu, path: Path, s: set<Menu>)
    requires Linked(cur, menu, above, null, s) && Up(path, above, root, s)
    ensures cur.Cons? && menu.parent == above
    ensures var after := if menu.list != null then Pre(cur.kids) + Later(Step(menu, cur.rest, path))
                         else if menu.next != null then Pre(cur.rest) + Later(path)
                         else Later(path);
            Pre(cur) + Later(path) == [menu] + after
    ensures menu.list != null ==>
      Linked(cur.kids, menu.list, menu, null, s) && Up(Step(menu, cur.rest, path), menu, root, s)
    ensures menu.list == null && menu.next != null ==> Linked(cur.rest, menu.next, above, null, s)
  {
    if menu.list == null { assert cur.kids == Nil && Pre(cur) == [menu] + Pre(cur.rest); }
    if menu.next == null { assert cur.rest == Nil; }
  }

  lemma NoneYet(flags: set<Symbol>)
    ensures FirstTimes([], flags, 0) == []
  {
  }

  lemma FirstTimesNext(ms: seq<Menu>, flags: set<Symbol>, m: Menu)
    ensures FirstTimes(ms + [m], flags, |ms| + 1)
            == var before := FirstTimes(ms, flags, |ms|);
               if m.sym.Some? && m.sym.value in flags && m.sym.value !in before then before + [m.sym.value] else before
  {
    FirstTimesSame(ms, ms + [m], flags, |ms|);
  }

  /** Where the walk is, and what it has still to visit. */
  ghost predicate At(menu: Menu?, todo: seq<Menu>, cur: Forest, above: Menu, path: Path, root: Menu, s: set<Menu>)
    reads s, root
  {
    if menu == null then todo == []
    else Linked(cur, menu, above, null, s) && Up(path, above, root, s) && todo == Pre(cur) + Later(path)
  }

  lemma StartWalk(f: Forest, root: Menu, s: set<Menu>)
    requires Linked(f, root.list, root, null, s)
    ensures At(root.list, Pre(f), f, root, Top, root, s)
  {
    assert Pre(f) == Pre(f) + Later(Top);
  }

  /** The step to the next entry. */
  method Next(entry: Menu, root: Menu, ghost todo: seq<Menu>, ghost cur: Forest, ghost above: Menu, ghost path: Path,
          ghost s: set<Menu>)
      returns (menu: Menu?, ghost cur': Forest, ghost above': Menu, ghost path': Path)
    requires At(entry, todo, cur, above, path, root, s) && root.parent == null && root.next == null
    ensures todo != [] && todo[0] == entry && At(menu, todo[1..], cur', above', path', root, s)
  {
    hide Linked, Up, Pre, Later;
    Onward(cur, entry, above, root, path, s);
    if entry.list != null {
      menu, cur', above', path' := entry.list, cur.kids, entry, Step(entry, cur.rest, path);
    } else if entry.next != null {
      menu, cur', above', path' := entry.next, cur.rest, above, path;
    } else {
      menu, cur', above', path' := Climb(entry.parent, root, path, s);
    }
  }

  ghost predicate Left(flags: set<Symbol>, write: set<Symbol>, written: seq<Symbol>) {
    forall x :: x in flags <==> x in write && x !in written
  }

  method WriteOnce(menu: Menu, flags: set<Symbol>, written: seq<Symbol>, ghost write: set<Symbol>,
          ghost visited: seq<Menu>)
      returns (left: set<Symbol>, more: seq<Symbol>)
    requires Left(flags, write, written) && written == FirstTimes(visited, write, |visited|)
    ensures Left(left, write, more) && more == FirstTimes(visited + [menu], write, |visited| + 1)
  {
    FirstTimesNext(visited, write, menu);
    left, more := flags, written;
    if menu.sym.Some? && menu.sym.value in flags {
      left := left - {menu.sym.value};
      more := more + [menu.sym.value];
    }
  }

  /** The loop of conf_write over the entries below root, with what it writes: it ends
      after visiting each of them once, in order, and each symbol with SYMBOL_WRITE
      is written once. */
  method ConfWrite(root: Menu, write: set<Symbol>, ghost f: Forest, ghost s: set<Menu>)
      returns (visited: seq<Menu>, written: seq<Symbol>)
    requires Linked(f, root.list, root, null, s) && root.parent == null && root.next == null
    ensures visited == Pre(f)
    ensures written == FirstTimes(Pre(f), write, |Pre(f)|)
  {
    hide Linked, Up, Pre, Later, FirstTimes, At, Left;
    visited, written := [], [];
    var menu, flags := root.list, write;
    ghost var todo, cur, above: Menu, path := Pre(f), f, root, Top;
    StartWalk(f, root, s);
    NoneYet(write);
    assert Left(flags, write, written) by { NoneLeft(write); }
    while menu != null
      invariant At(menu, todo, cur, above, path, root, s)
      invariant visited + todo == Pre(f)
      invariant written == FirstTimes(visited, write, |visited|)
      invariant Left(flags, write, written)
      decreases |todo|
    {
      flags, written := WriteOnce(menu, flags, written, write, visited);
      ghost var before := visited;
      visited := visited + [menu];
      menu, cur, above, path := Next(menu, root, todo, cur, above, path, s);
      Shift(before, todo);
      todo := todo[1..];
    }
    AtEnd(todo, cur, above, path, root, s);
  }

  lemma NoneLeft(write: set<Symbol>)
    ensures Left(write, write, [])
  {
  }

  lemma Shift(visited: seq<Menu>, todo: seq<Menu>)
    requires todo != []
    ensures visited + [todo[0]] + todo[1..] == visited + todo
  {
  }

  lemma AtEnd(todo: seq<Menu>, cur: Forest, above: Menu, path: Path, root: Menu, s: set<Menu>)
    requires At(null, todo, cur, above, path, root, s)
    ensures todo == []
  {
  }

  /** The menu tree is finalized and later written: the walk finds every entry that
      was there, once and in the same order. */
  method FinalizeThenWrite(root: Menu, write: set<Symbol>, ghost t: Forest, ghost s: set<Menu>)
      returns (visited: seq<Menu>, written: seq<Symbol>)
    requires t.Cons? && t.menu == root && t.rest.Nil? && root.sym.None? && Linked(t, root, null, null, s)
    requires Distinct(t) && s == Nodes(t)
    modifies s
    ensures visited == Pre(t.kids) && written == FirstTimes(visited, write, |visited|)
  {
    Finalize(root, t, null, s);
    FinalKeeps(t);
    assert Linked(Final(t).kids, root.list, root, null, s) && root.parent == null && root.next == null;
    assert Final(t).rest == Nil;
    assert Pre(t)[1..] == Pre(t.kids) && Pre(Final(t))[1..] == Pre(Final(t).kids);
    visited, written := ConfWrite(root, write, Final(t).kids, s);
  }
}
