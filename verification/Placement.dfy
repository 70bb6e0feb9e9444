/** The invariant of huft_build's main loop: which tables are open, which are
    closed, and what one more placed code or one more opened table does to the
    slots. */
module Placement {
  import opened Bits
  import opened Canonical
  import opened HuffTables
  import opened CodeLayout

  /** i is the r-th code of length k with its first bit lowest; once all
      patterns are used up, the increment has wrapped to zero. */
  ghost predicate AtCode(c: Layout, k: nat, r: nat, i: nat)
  {
    && 1 <= k <= c.g && r <= c.Codes(k) && i < Pow2(k)
    && (NextCode(c.lens, k) + r < Pow2(k) ==> Rev(k, i) == NextCode(c.lens, k) + r)
    && (NextCode(c.lens, k) + r >= Pow2(k) ==> i == 0)
  }

  /** The open tables, outermost first: u and x hold their bases and the bits
      leading to them, one full level apart, and i begins with those bits. */
  ghost predicate Stack(c: Layout, dir: seq<Tab>, st: seq<nat>, u: seq<nat>, x: seq<nat>, i: nat)
  {
    && |u| == 15 && |x| == 16 && |st| <= 15
    && forall j: nat :: j < |st| ==> OnStack(c, dir, st, u, x, i, j)
  }

  ghost predicate OnStack(c: Layout, dir: seq<Tab>, st: seq<nat>, u: seq<nat>, x: seq<nat>, i: nat, j: nat)
    requires j < |st| <= |u| < |x|
  {
    && st[j] < |dir|
    && u[j] == dir[st[j]].base && x[j] == dir[st[j]].pre && Low(i, dir[st[j]].w) == dir[st[j]].pre
    && j <= dir[st[j]].w
    && (j == 0 ==> dir[st[j]].w == 0)
    && (j > 0 ==> st[j - 1] < st[j] && dir[st[j]].w == dir[st[j - 1]].w + c.l && dir[st[j - 1]].jb >= c.l)
  }

  /** Each open table is linked from the one above it. */
  ghost predicate Links(c: Layout, T: seq<Huft>, dir: seq<Tab>, st: seq<nat>) {
    forall j: nat :: 1 <= j < |st| ==> LinkOn(c, T, dir, st, j)
  }

  ghost predicate LinkOn(c: Layout, T: seq<Huft>, dir: seq<Tab>, st: seq<nat>, j: nat) {
    && 1 <= j < |st| && st[j - 1] < |dir| && st[j] < |dir|
    && var at := LinkAt(dir, st, j);
      at < |T| && LinkTo(c, T[at], at, dir[st[j]])
  }

  ghost function LinkAt(dir: seq<Tab>, st: seq<nat>, j: nat): nat
    requires 1 <= j < |st| && st[j - 1] < |dir| && st[j] < |dir|
  {
    dir[st[j - 1]].base + Shr(dir[st[j]].pre, dir[st[j - 1]].w)
  }

  /** All other tables are complete. */
  ghost predicate Closed(c: Layout, dir: seq<Tab>, st: seq<nat>, S: nat) {
    forall t: nat :: t < |dir| ==> t in st || PatHi(c.g, dir[t].w, dir[t].pre) <= S
  }

  // ----- regions of patterns -----

  lemma Nested(g: nat, w: nat, k: nat, v: nat)
    requires w <= k <= g
    ensures PatLo(g, w, v) <= PatLo(g, k, v) < PatHi(g, k, v) <= PatHi(g, w, v)
  {
    hide Rev, Shl;
    var n := k - w;
    RevSplit(w, n, v);
    RevBound(n, Shr(v, w));
    var a, b := Rev(w, v), Rev(k, v);
    ShlAdd(a, 1, n);
    ShlShl(a, n, g - k);
    ShlShl(a + 1, n, g - k);
    ShlMono(Shl(a, n), b, g - k);
    ShlMono(b + 1, Shl(a + 1, n), g - k);
    ShlMono(b + 1, b, g - k);
  }

  lemma RevOrder(w: nat, v: nat, p: nat)
    requires Low(v, w) != Low(p, w)
    ensures Rev(w, v) != Rev(w, p)
  {
    if Rev(w, v) == Rev(w, p) { RevInjective(w, v, p); }
  }

  /** Patterns with different first w bits lie in disjoint regions. */
  lemma Apart(g: nat, w: nat, k: nat, v: nat, p: nat)
    requires w <= k <= g && Low(v, w) != Low(p, w)
    ensures PatHi(g, k, v) <= PatLo(g, w, p) || PatHi(g, w, p) <= PatLo(g, k, v)
  {
    hide Rev, Shl, Low;
    RevOrder(w, v, p);
    Nested(g, w, k, v);
    if Rev(w, v) < Rev(w, p) {
      ShlMono(Rev(w, v) + 1, Rev(w, p), g - w);
    } else {
      ShlMono(Rev(w, p) + 1, Rev(w, v), g - w);
    }
  }

  lemma RegionOfLow(g: nat, w: nat, v: nat, pre: nat)
    requires Low(v, w) == pre
    ensures PatLo(g, w, v) == PatLo(g, w, pre) && PatHi(g, w, v) == PatHi(g, w, pre)
    ensures Low(pre, w) == pre
  {
    RevLow(w, w, v);
    LowLow(v, w, w);
  }

  lemma HiAtMost(g: nat, w: nat, v: nat)
    requires w <= g
    ensures PatHi(g, w, v) <= Pow2(g)
  {
    RevBound(w, v);
    ShlMono(Rev(w, v) + 1, Pow2(w), g - w);
    ShlShl(1, w, g - w);
  }

  /** The current code's region, in terms of its bits. */
  lemma CodeRegion(c: Layout, k: nat, r: nat, i: nat)
    requires c.Valid() && AtCode(c, k, r, i) && r < c.Codes(k)
    ensures Rev(k, i) == NextCode(c.lens, k) + r
    ensures PatLo(c.g, k, i) == c.Start(k, r) && PatHi(c.g, k, i) == c.Start(k, r + 1)
    ensures c.Start(k, r) < c.Start(k, r + 1) <= Pow2(c.g)
  {
    hide Rev, Shl, NextCode, Count;
    Room(c, k);
    Nested(c.g, k, k, i);
    HiAtMost(c.g, k, i);
  }

  /** What a table with one more bit per slot adds to its prefix. */
  lemma PatLow(tab: Tab, idx: nat, k: nat, i: nat)
    requires tab.pre == Low(i, tab.w) && tab.w <= k && i < Pow2(k)
    ensures Low(tab.Pat(idx), tab.w) == tab.pre && Shr(tab.Pat(idx), tab.w) == idx
    ensures Low(tab.Pat(idx), k) == i <==> Low(idx, k - tab.w) == Shr(i, tab.w)
  {
    hide Low, Shr, Shl;
    LowBound(i, tab.w);
    LowJoin(tab.pre, idx, tab.w);
    LowSplit(tab.Pat(idx), tab.w, k - tab.w);
    LowShr(i, tab.w);
    ShlInjective(Low(idx, k - tab.w), Shr(i, tab.w), tab.w);
  }

  // ----- placing one code -----

  /** T after the entry e has been stored in the slots of the open table that
      begin with the code i. */
  ghost predicate Filled(T: seq<Huft>, U: seq<Huft>, tab: Tab, n: nat, a: nat, e: Huft) {
    && |T| == |U| && tab.base + Pow2(tab.jb) <= |T|
    && (forall p: nat :: p < |T| && !(tab.base <= p < tab.base + Pow2(tab.jb)) ==> U[p] == T[p])
    && (forall idx: nat :: idx < Pow2(tab.jb) ==>
      U[tab.base + idx] == if Low(idx, n) == a then e else T[tab.base + idx])
  }

  /** A slot whose patterns begin with the code holds that code. */
  lemma SlotOfCode(c: Layout, tab: Tab, pat: nat, i: nat, k: nat, r: nat, e: Huft)
    requires c.Valid() && AtCode(c, k, r, i) && r < c.Codes(k)
    requires tab.w < k <= tab.w + tab.jb && Low(pat, k) == i
    requires c.Leaf(e, k, r, tab.w) && e.bits == k - tab.w
    ensures LeafAt(c, e, tab, pat)
  {
    hide Rev, Shl, Low, NextCode, Count;
    CodeRegion(c, k, r, i);
    RevLow(k, k, pat);
  }

  /** A region that does not begin with the code is not finished by it. */
  lemma NotFinished(c: Layout, d: nat, pat: nat, i: nat, k: nat, r: nat)
    requires c.Valid() && AtCode(c, k, r, i) && r < c.Codes(k) && d <= c.g
    requires (k <= d && Low(pat, k) != i) || (d <= k && Low(i, d) != Low(pat, d))
    ensures PatHi(c.g, d, pat) <= c.Start(k, r) || PatHi(c.g, d, pat) > c.Start(k, r + 1)
  {
    hide Rev, Shl, Low, NextCode, Count;
    CodeRegion(c, k, r, i);
    LowSmall(i, k);
    Nested(c.g, d, d, pat);
    if k <= d && Low(pat, k) != i {
      Apart(c.g, k, d, pat, i);
    } else {
      Apart(c.g, d, k, i, pat);
    }
  }

  /** A slot that keeps its entry and that S' does not newly reach. */
  lemma SlotSame(c: Layout, T: seq<Huft>, U: seq<Huft>, dir: seq<Tab>, S: nat, S': nat, t: nat, idx: nat)
    requires c.Valid() && t < |dir| && |T| == |U| && SlotDone(c, T, dir, S, t, idx)
    requires U[dir[t].base + idx] == T[dir[t].base + idx]
    requires var hi := PatHi(c.g, dir[t].w + Wide(c, dir[t]), dir[t].Pat(idx)); hi <= S || hi > S'
    ensures SlotDone(c, U, dir, S', t, idx)
  {
  }

  /** The slot belongs to the table being filled. */
  lemma FillTop(c: Layout, T: seq<Huft>, U: seq<Huft>, dir: seq<Tab>, t: nat, idx: nat, i: nat, k: nat, r: nat, e: Huft)
    requires c.Valid() && AtCode(c, k, r, i) && r < c.Codes(k)
    requires t < |dir| && dir[t].pre == Low(i, dir[t].w)
    requires dir[t].w < k <= dir[t].w + Wide(c, dir[t]) && dir[t].w + dir[t].jb <= c.g
    requires |T| == |U| && dir[t].base + idx < |T|
    requires U[dir[t].base + idx] == if Low(idx, k - dir[t].w) == Shr(i, dir[t].w) then e else T[dir[t].base + idx]
    requires forall pat: nat :: Low(pat, k) == i ==> LeafAt(c, e, dir[t], pat)
    requires SlotDone(c, T, dir, c.Start(k, r), t, idx)
    ensures SlotDone(c, U, dir, c.Start(k, r + 1), t, idx)
  {
    hide Rev, Shl, Low, Shr, NextCode, Count, LeafAt;
    var tab := dir[t];
    PatLow(tab, idx, k, i);
    if Low(tab.Pat(idx), k) == i {
      assert SlotOK(c, U, dir, t, idx);
    } else {
      NotFinished(c, tab.w + Wide(c, tab), tab.Pat(idx), i, k, r);
      SlotSame(c, T, U, dir, c.Start(k, r), c.Start(k, r + 1), t, idx);
    }
  }

  lemma SlotInTable(g: nat, tab: Tab, d: nat, idx: nat)
    requires tab.pre < Pow2(tab.w) && idx < Pow2(d) && tab.w + d <= g
    ensures PatHi(g, tab.w + d, tab.Pat(idx)) <= PatHi(g, tab.w, tab.pre)
    ensures Low(tab.Pat(idx), tab.w + d) == tab.Pat(idx)
  {
    LowJoin(tab.pre, idx, tab.w);
    LowSplit(tab.Pat(idx), tab.w, d);
    LowSmall(idx, d);
    RegionOfLow(g, tab.w, tab.Pat(idx), tab.pre);
    Nested(g, tab.w, tab.w + d, tab.Pat(idx));
  }

  /** A slot of an outer open table is finished only if it holds the link. */
  lemma OuterSlot(c: Layout, T: seq<Huft>, dir: seq<Tab>, lo: nat, hi: nat, st: seq<nat>, u: seq<nat>, x: seq<nat>,
                  j: nat, idx: nat, i: nat, k: nat, r: nat)
    requires c.Valid() && AtCode(c, k, r, i) && r < c.Codes(k)
    requires Directory(c, dir, lo, hi) && Stack(c, dir, st, u, x, i) && Links(c, T, dir, st)
    requires j + 1 < |st| && st[j] < |dir| && st[j + 1] < |dir| && dir[st[j + 1]].w < k
      && idx < Pow2(Wide(c, dir[st[j]]))
    requires dir[st[j]].base + idx < |T|
    requires c.Start(k, r) < PatHi(c.g, dir[st[j]].w + Wide(c, dir[st[j]]), dir[st[j]].Pat(idx)) <= c.Start(k, r + 1)
    ensures SlotOK(c, T, dir, st[j], idx)
  {
    hide Rev, Shl, Low, Shr, Fits, NextCode, Count, LeafAt;
    var tab, child := dir[st[j]], dir[st[j + 1]];
    var pat, d := tab.Pat(idx), tab.w + Wide(c, tab);
    assert TabOK(c, tab, lo, hi);
    assert OnStack(c, dir, st, u, x, i, j + 1);
    assert LinkOn(c, T, dir, st, j + 1);
    SlotInTable(c.g, tab, Wide(c, tab), idx);
    assert d == child.w;
    if Low(i, d) == pat {
      LowJoin(tab.pre, idx, tab.w);
      assert ChildAt(c, T[tab.base + idx], dir, st[j], st[j + 1], idx);
    } else {
      NotFinished(c, d, pat, i, k, r);
    }
  }

  /** The slot belongs to another table. */
  lemma FillOther(c: Layout, T: seq<Huft>, U: seq<Huft>, dir: seq<Tab>, lo: nat, hi: nat, st: seq<nat>, u: seq<nat>,
          x: seq<nat>,
                  t: nat, idx: nat, i: nat, k: nat, r: nat)
    requires c.Valid() && AtCode(c, k, r, i) && r < c.Codes(k)
    requires Directory(c, dir, lo, hi) && Stack(c, dir, st, u, x, i) && Closed(c, dir, st, c.Start(k, r))
    requires |st| > 0 && st[|st| - 1] < |dir| && dir[st[|st| - 1]].w < k
    requires Links(c, T, dir, st)
    requires t < |dir| && t != st[|st| - 1] && idx < Pow2(Wide(c, dir[t]))
    requires |T| == |U| && dir[t].base + idx < |T| && U[dir[t].base + idx] == T[dir[t].base + idx]
    requires SlotDone(c, T, dir, c.Start(k, r), t, idx)
    ensures SlotDone(c, U, dir, c.Start(k, r + 1), t, idx)
  {
    hide Rev, Shl, Low, Shr, Fits, NextCode, Count, SlotOK;
    assert TabOK(c, dir[t], lo, hi);
    SlotInTable(c.g, dir[t], Wide(c, dir[t]), idx);
    if c.Start(k, r) < PatHi(c.g, dir[t].w + Wide(c, dir[t]), dir[t].Pat(idx)) <= c.Start(k, r + 1) {
      assert t in st;
      var j: nat :| j < |st| && st[j] == t;
      StackOrder(c, dir, st, u, x, i, j + 1, |st| - 1);
      OuterSlot(c, T, dir, lo, hi, st, u, x, j, idx, i, k, r);
      assert SlotDone(c, T, dir, c.Start(k, r + 1), t, idx);
      SlotSame(c, T, U, dir, c.Start(k, r + 1), c.Start(k, r + 1), t, idx);
    } else {
      SlotSame(c, T, U, dir, c.Start(k, r), c.Start(k, r + 1), t, idx);
    }
  }

  /** Tables deeper in the stack were allocated later and lie further down. */
  lemma {:induction false} StackOrder(c: Layout, dir: seq<Tab>, st: seq<nat>, u: seq<nat>, x: seq<nat>, i: nat, a: nat,
          b: nat)
    requires Stack(c, dir, st, u, x, i) && a <= b < |st|
    ensures st[a] < |dir| && st[b] < |dir| && dir[st[a]].w <= dir[st[b]].w
    ensures a < b ==> st[a] < st[b]
    decreases b
  {
    assert OnStack(c, dir, st, u, x, i, a);
    assert OnStack(c, dir, st, u, x, i, b);
    if a < b { StackOrder(c, dir, st, u, x, i, a, b - 1); }
  }

  /** The slots that are used lie in the table. */
  lemma WideFits(c: Layout, dir: seq<Tab>, lo: nat, hi: nat, t: nat)
    requires Directory(c, dir, lo, hi) && t < |dir|
    ensures dir[t].w + Wide(c, dir[t]) <= c.g && Pow2(Wide(c, dir[t])) <= Pow2(dir[t].jb)
    ensures dir[t].base + Pow2(Wide(c, dir[t])) <= hi
  {
    assert TabOK(c, dir[t], lo, hi);
    Pow2Mono(Wide(c, dir[t]), dir[t].jb);
  }

  /** Storing the entry for code i finishes exactly the slots up to its end. */
  lemma FillStep(c: Layout, T: seq<Huft>, U: seq<Huft>, dir: seq<Tab>, lo: nat, hi: nat, st: seq<nat>, u: seq<nat>,
          x: seq<nat>,
                 i: nat, k: nat, r: nat, e: Huft)
    requires c.Valid() && AtCode(c, k, r, i) && r < c.Codes(k)
    requires Directory(c, dir, lo, hi) && Stack(c, dir, st, u, x, i) && Closed(c, dir, st, c.Start(k, r))
    requires |st| > 0 && st[|st| - 1] < |dir| && hi <= |T|
    requires Links(c, T, dir, st) && Slots(c, T, dir, c.Start(k, r))
    requires var tab := dir[st[|st| - 1]];
      && tab.w < k <= tab.w + Wide(c, tab)
      && Filled(T, U, tab, k - tab.w, Shr(i, tab.w), e)
      && c.Leaf(e, k, r, tab.w) && e.bits == k - tab.w
    ensures Slots(c, U, dir, c.Start(k, r + 1))
  {
    hide Rev, Shl, Low, Shr, NextCode, Count, SlotDone, Fits;
    var top := st[|st| - 1];
    var S := c.Start(k, r + 1);
    forall pat: nat | Low(pat, k) == i
      ensures LeafAt(c, e, dir[top], pat)
    {
      SlotOfCode(c, dir[top], pat, i, k, r, e);
    }
    forall t: nat, idx: nat | t < |dir| && idx < Pow2(Wide(c, dir[t]))
      ensures SlotDone(c, U, dir, S, t, idx)
    {
      WideFits(c, dir, lo, hi, t);
      assert TabOK(c, dir[t], lo, hi);
      assert TabOK(c, dir[top], lo, hi);
      assert SlotDone(c, T, dir, c.Start(k, r), t, idx);
      assert OnStack(c, dir, st, u, x, i, |st| - 1);
      if t == top {
        FillTop(c, T, U, dir, t, idx, i, k, r, e);
      } else {
        FillOther(c, T, U, dir, lo, hi, st, u, x, t, idx, i, k, r);
      }
    }
  }

  /** The links between open tables are outside the table being filled. */
  lemma LinksKept(c: Layout, T: seq<Huft>, U: seq<Huft>, dir: seq<Tab>, lo: nat, hi: nat, st: seq<nat>, u: seq<nat>,
          x: seq<nat>, i: nat)
    requires Directory(c, dir, lo, hi) && Stack(c, dir, st, u, x, i) && Links(c, T, dir, st)
    requires |st| > 0 && st[|st| - 1] < |dir| && |T| == |U|
    requires var tab := dir[st[|st| - 1]];
      forall p: nat :: p < |T| && !(tab.base <= p < tab.base + Pow2(tab.jb)) ==> U[p] == T[p]
    ensures Links(c, U, dir, st)
  {
    hide Shl, Shr, Low, Fits;
    forall j: nat | 1 <= j < |st|
      ensures LinkOn(c, U, dir, st, j)
    {
      assert LinkOn(c, T, dir, st, j);
      LinkInTable(c, dir, lo, hi, st, u, x, i, j);
      StackOrder(c, dir, st, u, x, i, j - 1, |st| - 1);
    }
  }

  lemma LinkInTable(c: Layout, dir: seq<Tab>, lo: nat, hi: nat, st: seq<nat>, u: seq<nat>, x: seq<nat>, i: nat, j: nat)
    requires Directory(c, dir, lo, hi) && Stack(c, dir, st, u, x, i) && 1 <= j < |st|
    ensures st[j - 1] < |dir| && st[j] < |dir|
    ensures dir[st[j - 1]].base <= LinkAt(dir, st, j) < dir[st[j - 1]].base + Pow2(dir[st[j - 1]].jb)
  {
    assert OnStack(c, dir, st, u, x, i, j - 1);
    assert OnStack(c, dir, st, u, x, i, j);
    var w, n := dir[st[j - 1]].w, dir[st[j - 1]].jb;
    assert TabOK(c, dir[st[j]], lo, hi);
    ShrBound(dir[st[j]].pre, w, c.l);
    Pow2Mono(c.l, n);
  }

  lemma ShrBound(v: nat, m: nat, n: nat)
    requires v < Pow2(m + n)
    ensures Shr(v, m) < Pow2(n)
  {
    LowShr(v, m);
    ShlShl(1, n, m);
    ShlMono(Pow2(n), Shr(v, m), m);
  }

  // ----- closing tables -----

  /** When the next code leaves a table, the table is complete, and the code
      has no bits beyond those the table's parent was indexed with. */
  lemma PopTable(c: Layout, tab: Tab, lo: nat, hi: nat, k: nat, r: nat, i: nat, i': nat)
    requires c.Valid() && AtCode(c, k, r, i) && r < c.Codes(k) && AtCode(c, k, r + 1, i')
    requires TabOK(c, tab, lo, hi) && Low(i, tab.w) == tab.pre && tab.w < k && Low(i', tab.w) != tab.pre
    ensures PatHi(c.g, tab.w, tab.pre) <= c.Start(k, r + 1)
    ensures i' < Pow2(tab.w)
  {
    hide Rev, Low, NextCode, Count, Fits;
    var g, w := c.g, tab.w;
    CodeRegion(c, k, r, i);
    RegionOfLow(g, w, i, tab.pre);
    Nested(g, w, k, i);
    HiAtMost(g, w, tab.pre);
    if NextCode(c.lens, k) + r + 1 < Pow2(k) {
      Nested(g, k, k, i');
      assert PatLo(g, k, i') == c.Start(k, r + 1);
      Apart(g, w, k, i', tab.pre);
      TailZero(g, w, k, i', tab.pre);
    } else {
      Room(c, k);
      ShlShl(1, k, g - k);
      assert c.Start(k, r + 1) == Pow2(g);
    }
  }

  /** The next code, if there is one, leaves a table exactly when the table is
      complete. */
  lemma PopExactly(c: Layout, tab: Tab, lo: nat, hi: nat, k: nat, r: nat, i: nat, i': nat)
    requires c.Valid() && AtCode(c, k, r, i) && r < c.Codes(k) && AtCode(c, k, r + 1, i')
    requires TabOK(c, tab, lo, hi) && Low(i, tab.w) == tab.pre && tab.w < k && NextCode(c.lens, k) + r + 1 < Pow2(k)
    ensures Low(i', tab.w) != tab.pre <==> PatHi(c.g, tab.w, tab.pre) <= c.Start(k, r + 1)
  {
    hide Rev, Low, Shl, NextCode, Count, Fits;
    if Low(i', tab.w) != tab.pre {
      PopTable(c, tab, lo, hi, k, r, i, i');
    } else {
      NextRegion(c, k, r, i');
      Nested(c.g, tab.w, k, i');
      RegionOfLow(c.g, tab.w, i', tab.pre);
    }
  }

  lemma NextRegion(c: Layout, k: nat, r: nat, i': nat)
    requires AtCode(c, k, r + 1, i') && NextCode(c.lens, k) + r + 1 < Pow2(k)
    ensures PatLo(c.g, k, i') == c.Start(k, r + 1)
  {
    hide Rev, Shl, NextCode, Count;
  }

  /** If a code begins where a region of w-bit patterns ends, its bits from w
      on are zero. */
  lemma TailZero(g: nat, w: nat, k: nat, v: nat, p: nat)
    requires w <= k <= g && v < Pow2(k) && PatLo(g, k, v) == PatHi(g, w, p)
    ensures v < Pow2(w)
  {
    hide Rev, Low, Shr;
    var n := k - w;
    var a, b := Rev(w, v), Rev(n, Shr(v, w));
    RevSplit(w, n, v);
    RevBound(n, Shr(v, w));
    ShlShl(Rev(w, p) + 1, n, g - k);
    ShlInjective(Rev(k, v), Shl(Rev(w, p) + 1, n), g - k);
    assert Shl(a, n) + b == Shl(Rev(w, p) + 1, n);
    ShlAdd(a, 1, n);
    ShlMono(Rev(w, p) + 1, a, n);
    ShlMono(a + 1, Rev(w, p) + 1, n);
    assert b == 0;
    ShrBound(v, w, n);
    RevZero(n, Shr(v, w));
    LowSmall(Shr(v, w), n);
    LowShr(v, w);
    LowBound(v, w);
    ShlZero(w);
  }

  lemma {:induction false} RevZero(n: nat, v: nat)
    requires Rev(n, v) == 0
    ensures Low(v, n) == 0
    decreases n
  {
    if n > 0 { RevZero(n - 1, v / 2); }
  }

  // ----- opening a table -----

  /** A code with no bits from w on begins the region of its first w bits. */
  lemma FreshRegion(g: nat, w: nat, k: nat, i: nat)
    requires w <= k <= g && i < Pow2(w)
    ensures PatLo(g, w, i) == PatLo(g, k, i)
  {
    RevSplit(w, k - w, i);
    LowSmall(i, w);
    RevOfZero(k - w);
    ShlShl(Rev(w, i), k - w, g - k);
  }

  lemma {:induction false} RevOfZero(n: nat)
    ensures Rev(n, 0) == 0
  {
    if n > 0 {
      RevOfZero(n - 1);
      ShlZero(n - 1);
    }
  }

  /** A finished slot stays finished when tables are added and other memory
      changes. */
  lemma SlotGrows(c: Layout, T: seq<Huft>, U: seq<Huft>, dir: seq<Tab>, child: Tab, S: nat, t: nat, idx: nat)
    requires c.Valid() && t < |dir| && |U| == |T| && SlotDone(c, T, dir, S, t, idx)
    requires U[dir[t].base + idx] == T[dir[t].base + idx]
    ensures SlotDone(c, U, dir + [child], S, t, idx)
  {
    var e := T[dir[t].base + idx];
    if PatHi(c.g, dir[t].w + Wide(c, dir[t]), dir[t].Pat(idx)) <= S && !LeafAt(c, e, dir[t], dir[t].Pat(idx)) {
      var t': nat :| ChildAt(c, e, dir, t, t', idx);
      assert ChildAt(c, e, dir + [child], t, t', idx);
    }
  }

  /** No slot of a table whose region begins at S is finished yet. */
  lemma FreshSlot(c: Layout, tab: Tab, d: nat, idx: nat, S: nat)
    requires tab.w + d <= c.g && tab.pre < Pow2(tab.w) && PatLo(c.g, tab.w, tab.pre) == S
    ensures PatHi(c.g, tab.w + d, tab.Pat(idx)) > S
  {
    LowJoin(tab.pre, idx, tab.w);
    RegionOfLow(c.g, tab.w, tab.Pat(idx), tab.pre);
    Nested(c.g, tab.w, tab.w + d, tab.Pat(idx));
  }

  /** Opening a table at the start of its region and linking it leaves every
      finished slot finished. */
  lemma OpenStep(c: Layout, T: seq<Huft>, U: seq<Huft>, dir: seq<Tab>, lo: nat, hi: nat, st: seq<nat>, u: seq<nat>,
          x: seq<nat>,
                 child: Tab, i: nat, S: nat)
    requires c.Valid() && Directory(c, dir, lo, hi) && hi <= |T| && hi <= child.base
    requires Stack(c, dir, st, u, x, i) && Slots(c, T, dir, S) && TabOK(c, child, lo, |T|)
    requires child.pre == i && PatLo(c.g, child.w, i) == S && |U| == |T|
    requires |st| == 0 ==> U == T
    requires |st| > 0 ==> st[|st| - 1] < |dir| && var top := dir[st[|st| - 1]];
      && top.jb >= c.l && child.w == top.w + c.l
      && var at := top.base + Shr(i, top.w);
        at < |T| && at < child.base && U == T[at := Huft(child.jb, c.l, child.base - at)]
    ensures Slots(c, U, dir + [child], S)
  {
    hide Rev, Shl, Low, Shr, NextCode, Count, SlotOK, Fits, Sized, Stack;
    var dir' := dir + [child];
    forall t: nat, idx: nat | t < |dir'| && idx < Pow2(Wide(c, dir'[t]))
      ensures SlotDone(c, U, dir', S, t, idx)
    {
      if t == |dir| {
        Pow2Mono(Wide(c, child), child.jb);
        FreshSlot(c, child, Wide(c, child), idx, S);
      } else {
        WideFits(c, dir, lo, hi, t);
        assert SlotDone(c, T, dir, S, t, idx);
        if U[dir[t].base + idx] == T[dir[t].base + idx] {
          SlotGrows(c, T, U, dir, child, S, t, idx);
        } else {
          LinkSlotOpen(c, dir, lo, hi, st, u, x, child, i, S, t, idx);
        }
      }
    }
  }

  /** The slot that receives the link is not a finished one. */
  lemma LinkSlotOpen(c: Layout, dir: seq<Tab>, lo: nat, hi: nat, st: seq<nat>, u: seq<nat>, x: seq<nat>,
                     child: Tab, i: nat, S: nat, t: nat, idx: nat)
    requires c.Valid() && Directory(c, dir, lo, hi) && Stack(c, dir, st, u, x, i)
    requires |st| > 0 && st[|st| - 1] < |dir| && t < |dir| && idx < Pow2(Wide(c, dir[t]))
    requires child.w <= c.g && child.pre == i < Pow2(child.w) && PatLo(c.g, child.w, i) == S
    requires var top := dir[st[|st| - 1]];
      top.jb >= c.l && child.w == top.w + c.l && dir[t].base + idx == top.base + Shr(i, top.w)
    ensures PatHi(c.g, dir[t].w + Wide(c, dir[t]), dir[t].Pat(idx)) > S
  {
    hide Rev, Shl, Low, Shr, Fits;
    var s := st[|st| - 1];
    var top := dir[s];
    assert OnStack(c, dir, st, u, x, i, |st| - 1);
    assert TabOK(c, top, lo, hi) && TabOK(c, dir[t], lo, hi);
    ShrBound(i, top.w, c.l);
    Pow2Mono(c.l, top.jb);
    WideFits(c, dir, lo, hi, t);
    assert t == s;
    LowShr(i, top.w);
    assert top.Pat(idx) == i;
    Nested(c.g, child.w, child.w, i);
  }

  // ----- the size of a table -----

  lemma PatWidth(g: nat, w: nat, pre: nat)
    requires w <= g
    ensures PatHi(g, w, pre) == PatLo(g, w, pre) + Pow2(g - w)
  {
    ShlAdd(Rev(w, pre), 1, g - w);
  }

  /** A full level, or all bits there are, is always enough. */
  lemma FitsLevel(c: Layout, k: nat, r: nat, jb: nat, w: nat, pre: nat)
    requires c.Valid() && 1 <= k <= c.g && w < k && PatLo(c.g, w, pre) == c.Start(k, r)
    requires jb >= c.l || w + jb >= c.g
    ensures Fits(c, jb, w, pre)
  {
    forall L: nat, r': nat | 1 <= L <= c.g && r' < c.Codes(L)
      && PatLo(c.g, w, pre) <= c.Start(L, r') < PatHi(c.g, w, pre)
      ensures w < L
    {
      LaterIsLonger(c, k, r, L, r');
    }
  }

  /** jb bits are enough if the codes of up to w + jb bits use up the region. */
  lemma FitsEnough(c: Layout, k: nat, r: nat, jb: nat, w: nat, pre: nat)
    requires c.Valid() && 1 <= k <= c.g && w < k <= w + jb <= c.g && PatLo(c.g, w, pre) == c.Start(k, r)
    requires c.Start(w + jb, c.Codes(w + jb)) >= PatHi(c.g, w, pre)
    ensures Fits(c, jb, w, pre)
  {
    forall L: nat, r': nat | 1 <= L <= c.g && r' < c.Codes(L)
      && PatLo(c.g, w, pre) <= c.Start(L, r') < PatHi(c.g, w, pre)
      ensures w < L <= w + jb
    {
      LaterIsLonger(c, k, r, L, r');
      if L > w + jb {
        StartMono(c, w + jb, L);
        StartAdd(c, L, 0, r');
      }
    }
  }

  /** The code after the ones placed so far lies in the innermost open table,
      and fits it unless it needs another level. */
  lemma TopHolds(c: Layout, dir: seq<Tab>, lo: nat, hi: nat, t: nat, k: nat, r: nat, i: nat)
    requires c.Valid() && Directory(c, dir, lo, hi) && t < |dir| && AtCode(c, k, r, i) && r < c.Codes(k)
    requires Low(i, dir[t].w) == dir[t].pre && dir[t].w <= k
    ensures dir[t].w < k && (k <= dir[t].w + dir[t].jb || dir[t].jb >= c.l)
  {
    hide Rev, Shl, Low, NextCode, Count;
    assert TabOK(c, dir[t], lo, hi);
    CodeRegion(c, k, r, i);
    RegionOfLow(c.g, dir[t].w, i, dir[t].pre);
    Nested(c.g, dir[t].w, k, i);
  }

  // ----- what is allocated, and what is never written -----

  /** The tables lie one after the other in the space from lo up to hn. */
  ghost predicate Tiled(dir: seq<Tab>, lo: nat, hn: nat) {
    && (if dir == [] then hn == lo else dir[0].base == lo && dir[|dir| - 1].base + Pow2(dir[|dir| - 1].jb) == hn)
    && forall t :: 0 < t < |dir| ==> dir[t].base == dir[t - 1].base + Pow2(dir[t - 1].jb)
  }

  /** No region has two tables. */
  ghost predicate OnePerRegion(dir: seq<Tab>) {
    forall t, t' :: 0 <= t < t' < |dir| ==> dir[t].w != dir[t'].w || dir[t].pre != dir[t'].pre
  }

  /** The slots of a table that its codes do not use, and the space after the tables,
      are as they were. */
  ghost predicate Kept(c: Layout, T: seq<Huft>, dir: seq<Tab>, hn: nat) {
    && |T| == |c.was| && (forall p: nat :: hn <= p < |T| ==> T[p] == c.was[p])
    && forall t: nat, idx: nat :: t < |dir| && Pow2(c.l) <= idx < Pow2(dir[t].jb) ==> KeptAt(c, T, dir, t, idx)
  }

  ghost predicate KeptAt(c: Layout, T: seq<Huft>, dir: seq<Tab>, t: nat, idx: nat)
    requires t < |dir| && |T| == |c.was|
  {
    dir[t].base + idx < |T| && T[dir[t].base + idx] == c.was[dir[t].base + idx]
  }

  /** Every place in the space in use belongs to a table. */
  lemma {:induction false} TiledAt(dir: seq<Tab>, lo: nat, hn: nat, p: nat) returns (t: nat)
    requires Tiled(dir, lo, hn) && lo <= p < hn
    ensures t < |dir| && dir[t].base <= p < dir[t].base + Pow2(dir[t].jb)
    decreases |dir|
  {
    var last := |dir| - 1;
    if p >= dir[last].base {
      t := last;
    } else {
      assert last > 0;
      t := TiledAt(dir[..last], lo, dir[last].base, p);
    }
  }

  lemma TiledGrows(dir: seq<Tab>, lo: nat, hn: nat, child: Tab)
    requires Tiled(dir, lo, hn) && child.base == hn
    ensures Tiled(dir + [child], lo, hn + Pow2(child.jb))
  {
  }

  /** A table for the region where the next code begins is the first one there. */
  lemma RegionNew(c: Layout, dir: seq<Tab>, lo: nat, hi: nat, st: seq<nat>, u: seq<nat>, x: seq<nat>, i: nat,
          child: Tab, S: nat)
    requires Directory(c, dir, lo, hi) && OnePerRegion(dir) && Stack(c, dir, st, u, x, i) && Closed(c, dir, st, S)
    requires child.w <= c.g && PatLo(c.g, child.w, child.pre) == S
    requires |st| > 0 ==> st[|st| - 1] < |dir| && dir[st[|st| - 1]].w < child.w
    ensures OnePerRegion(dir + [child])
  {
    hide Rev, Shl, Low, Fits, Sized;
    forall t | 0 <= t < |dir| ensures dir[t].w != child.w || dir[t].pre != child.pre {
      PatWidth(c.g, child.w, child.pre);
      ShlPositive(c.g - child.w);
      if t in st {
        var j: nat :| j < |st| && st[j] == t;
        StackOrder(c, dir, st, u, x, i, j, |st| - 1);
      }
    }
  }

  lemma {:induction false} ShlPositive(n: nat)
    ensures Pow2(n) > 0
  {
    if n > 0 { ShlPositive(n - 1); }
  }

  /** Opening a table keeps what is to be kept. */
  lemma OpenKept(c: Layout, T: seq<Huft>, U: seq<Huft>, dir: seq<Tab>, lo: nat, hn: nat, child: Tab, top: nat, at: nat)
    requires Directory(c, dir, lo, hn) && Kept(c, T, dir, hn) && child.base == hn && hn + Pow2(child.jb) <= |T|
      && |U| == |T|
    requires U == T || (top < |dir| && at < Pow2(c.l) && at < Pow2(dir[top].jb) && dir[top].base + at < hn
                        && U == T[dir[top].base + at := U[dir[top].base + at]])
    ensures Kept(c, U, dir + [child], hn + Pow2(child.jb))
  {
    hide Fits, Sized;
    forall t: nat, idx: nat | t < |dir| + 1 && Pow2(c.l) <= idx < Pow2((dir + [child])[t].jb)
      ensures KeptAt(c, U, dir + [child], t, idx)
    {
      if t < |dir| {
        assert KeptAt(c, T, dir, t, idx);
        assert TabOK(c, dir[t], lo, hn);
      }
    }
  }

  /** Storing a code keeps what is to be kept: a table with slots that are not used
      has no code of its own level. */
  lemma FillKept(c: Layout, T: seq<Huft>, U: seq<Huft>, dir: seq<Tab>, lo: nat, hn: nat, top: nat, k: nat, r: nat,
          i: nat)
    requires c.Valid() && AtCode(c, k, r, i) && r < c.Codes(k)
    requires Directory(c, dir, lo, hn) && Kept(c, T, dir, hn) && |U| == |T| && hn <= |T|
    requires top < |dir| && Low(i, dir[top].w) == dir[top].pre && dir[top].w < k <= dir[top].w + c.l
    requires forall p: nat :: p < |T| && !(dir[top].base <= p < dir[top].base + Pow2(dir[top].jb)) ==> U[p] == T[p]
    ensures Kept(c, U, dir, hn)
  {
    hide Rev, Shl, Low, NextCode, Count, Fits;
    assert TabOK(c, dir[top], lo, hn);
    CodeRegion(c, k, r, i);
    RegionOfLow(c.g, dir[top].w, i, dir[top].pre);
    Nested(c.g, dir[top].w, k, i);
    assert IsCode(c, k, r);
    assert dir[top].jb <= c.l;
    Pow2Mono(dir[top].jb, c.l);
    forall t: nat, idx: nat | t < |dir| && Pow2(c.l) <= idx < Pow2(dir[t].jb)
      ensures KeptAt(c, U, dir, t, idx)
    {
      assert KeptAt(c, T, dir, t, idx);
      assert TabOK(c, dir[t], lo, hn);
    }
  }

  /** All tables of a code, one after the other and one for a region, with every slot
      that the codes use finished and the others as they were. */
  ghost predicate Built(c: Layout, T: seq<Huft>, dir: seq<Tab>, lo: nat, hn: nat) {
    && c.Valid() && Directory(c, dir, lo, hn) && hn <= |T| && Slots(c, T, dir, Pow2(c.g))
    && Tiled(dir, lo, hn) && OnePerRegion(dir) && Kept(c, T, dir, hn)
    && |dir| > 0 && dir[0].base == lo && dir[0].w == 0 && dir[0].pre == 0
  }

  /** The first code of a region says whether all of them are more than a level
      longer. */
  lemma DeepOrNot(c: Layout, k: nat, r: nat, w: nat, i: nat)
    requires c.Valid() && IsCode(c, k, r) && w < k && PatLo(c.g, w, i) == c.Start(k, r)
    ensures k > w + c.l <==> Deep(c, w, i)
    ensures Begins(c, w, i)
  {
    PatWidth(c.g, w, i);
    ShlPositive(c.g - w);
    if k > w + c.l {
      forall L: nat, r': nat | IsCode(c, L, r') && PatLo(c.g, w, i) <= c.Start(L, r') < PatHi(c.g, w, i)
        ensures L > w + c.l
      {
        LaterIsLonger(c, k, r, L, r');
      }
    }
  }
}
