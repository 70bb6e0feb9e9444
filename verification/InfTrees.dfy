/** inftrees.c: building the lookup tables for a vector of code lengths.
    `HuftBuild` is huft_build; its loops are the methods before it, in the
    order in which they run.  The local arrays c[], x[] and u[] are sequences;
    the caller's work area v and table space hp are arrays written in place. */
module InfTrees {
  import opened Bits
  import opened Canonical
  import opened HuffTables
  import opened CodeLayout
  import opened Placement
  import opened TableGaps

  const BMAX: nat := 15
  const MANY: nat := 1440

  datatype Status = Ok | DataError | BufError

  // ----- counting and sorting the lengths -----

  /** Values of shorter codes come first in v. */
  ghost function Off(b: seq<nat>, L: nat): nat {
    if L <= 1 then 0 else Off(b, L - 1) + Count(b, L - 1)
  }

  lemma {:induction false} OffStep(b: seq<nat>, L: nat)
    requires |b| > 0
    ensures Off(b, L) == Off(b[..|b| - 1], L) + if 1 <= b[|b| - 1] < L then 1 else 0
  {
    if L > 1 { OffStep(b, L - 1); }
  }

  lemma {:induction false} OffBound(b: seq<nat>, L: nat)
    ensures Off(b, L) <= |b|
  {
    if |b| == 0 {
      OffEmpty(b, L);
    } else {
      OffStep(b, L);
      OffBound(b[..|b| - 1], L);
    }
  }

  lemma {:induction false} OffEmpty(b: seq<nat>, L: nat)
    requires |b| == 0
    ensures Off(b, L) == 0
  {
    if L > 1 { OffEmpty(b, L - 1); }
  }

  lemma {:induction false} OffMono(b: seq<nat>, L: nat, M: nat)
    requires 1 <= L < M
    ensures Off(b, L) + Count(b, L) <= Off(b, M)
    decreases M
  {
    if L + 1 < M { OffMono(b, L, M - 1); }
  }

  method CountLengths(b: seq<nat>) returns (c: seq<nat>)
    requires Lengths(b)
    ensures |c| == BMAX + 1
    ensures forall L :: 0 <= L <= BMAX ==> c[L] == Count(b, L)
  {
    c := seq(BMAX + 1, _ => 0);
    var i := 0;
    while i < |b|
      invariant i <= |b| && |c| == BMAX + 1
      invariant forall L :: 0 <= L <= BMAX ==> c[L] == Count(b[..i], L)
    {
      forall L | 0 <= L <= BMAX
        ensures Count(b[..i + 1], L) == Count(b[..i], L) + if b[i] == L then 1 else 0
      {
        CountPrefix(b, i, L);
      }
      c := c[b[i] := c[b[i]] + 1];
      i := i + 1;
    }
    assert b[..i] == b;
  }

  /** The shortest and the longest length in use. */
  method LengthBounds(b: seq<nat>, c: seq<nat>) returns (j: nat, g: nat)
    requires Lengths(b) && !AllZero(b) && |c| == BMAX + 1
    requires forall L :: 0 <= L <= BMAX ==> c[L] == Count(b, L)
    ensures 1 <= j <= g <= BMAX && c[j] > 0 && c[g] > 0
    ensures forall s :: 0 <= s < |b| ==> b[s] == 0 || j <= b[s] <= g
  {
    var s :| 0 <= s < |b| && b[s] != 0;
    CountZero(b, b[s]);
    j := 1;
    while j <= BMAX && c[j] == 0
      invariant 1 <= j <= b[s]
      invariant forall L :: 1 <= L < j ==> c[L] == 0
    {
      j := j + 1;
    }
    g := BMAX;
    while g > 0 && c[g] == 0
      invariant b[s] <= g <= BMAX
      invariant forall L :: g < L <= BMAX ==> c[L] == 0
    {
      g := g - 1;
    }
    forall s' | 0 <= s' < |b|
      ensures b[s'] == 0 || j <= b[s'] <= g
    {
      CountZero(b, b[s']);
    }
  }

  lemma {:induction false} NextCodeZero(b: seq<nat>, j: nat)
    requires forall L :: 1 <= L < j ==> Count(b, L) == 0
    ensures NextCode(b, j) == 0
  {
    if j > 1 { NextCodeZero(b, j - 1); }
  }

  lemma {:induction false} OverGrows(b: seq<nat>, j: nat, g: nat)
    requires 1 <= j <= g && NextCode(b, j) + Count(b, j) > Pow2(j)
    ensures NextCode(b, g) + Count(b, g) > Pow2(g)
    decreases g
  {
    if j < g { OverGrows(b, j, g - 1); }
  }

  /** How many codes of length g are missing; negative if the lengths are
      over-subscribed. */
  method Missing(b: seq<nat>, c: seq<nat>, j0: nat, g: nat) returns (y: int)
    requires Lengths(b) && |c| == BMAX + 1 && 1 <= j0 <= g <= BMAX
    requires forall L :: 0 <= L <= BMAX ==> c[L] == Count(b, L)
    requires forall s :: 0 <= s < |b| ==> b[s] == 0 || j0 <= b[s] <= g
    ensures y < 0 <==> Kraft(b) > Pow2(MAXBITS)
    ensures y >= 0 ==> NextCode(b, g) + Count(b, g) + y == Pow2(g)
    ensures y == 0 <==> Complete(b)
  {
    forall L | 1 <= L < j0
      ensures Count(b, L) == 0
    {
      CountZero(b, L);
    }
    NextCodeZero(b, j0);
    KraftSign(b, g);
    var j := j0;
    y := Pow2(j);
    while j < g
      invariant j0 <= j <= g
      invariant y == Pow2(j) - NextCode(b, j)
    {
      y := y - c[j];
      if y < 0 {
        OverGrows(b, j, g);
        return;
      }
      j := j + 1;
      y := 2 * y;
    }
    y := y - c[g];
  }

  /** Starting offsets into the value table for each length. */
  method Offsets(b: seq<nat>, c: seq<nat>, g: nat) returns (x: seq<nat>)
    requires |c| == BMAX + 1 && 1 <= g <= BMAX
    requires forall L :: 0 <= L < g ==> c[L] == Count(b, L)
    ensures |x| == BMAX + 1
    ensures forall L :: 1 <= L <= g ==> x[L] == Off(b, L)
  {
    hide Count;
    x := seq(BMAX + 1, _ => 0);
    var j, i := 0, 1;
    while i < g
      invariant 1 <= i <= g && |x| == BMAX + 1 && j == Off(b, i)
      invariant forall L :: 1 <= L <= i ==> x[L] == Off(b, L)
    {
      j := j + c[i];
      x := x[i + 1 := j];
      i := i + 1;
    }
  }

  /** v lists the symbols in code order. */
  ghost predicate Sorted(b: seq<nat>, g: nat, v: seq<nat>) {
    forall L: nat, r: nat :: 1 <= L <= g && r < Count(b, L) ==> Placed(b, v, L, r)
  }

  ghost predicate Placed(b: seq<nat>, v: seq<nat>, L: nat, r: nat) {
    Off(b, L) + r < |v| && v[Off(b, L) + r] == Nth(b, L, r)
  }

  /** Make a table of values in order of bit lengths. */
  method SortValues(b: seq<nat>, x0: seq<nat>, g: nat, v: array<nat>) returns (x: seq<nat>)
    requires Lengths(b) && 1 <= g <= BMAX && |x0| == BMAX + 1 && |b| <= v.Length
    requires forall s :: 0 <= s < |b| ==> b[s] <= g
    requires forall L :: 1 <= L <= g ==> x0[L] == Off(b, L)
    modifies v
    ensures Sorted(b, g, v[..])
    ensures |x| == BMAX + 1 && x[g] == Off(b, g) + Count(b, g)
  {
    hide Nth, Off;
    x := x0;
    var i := 0;
    while i < |b|
      invariant i <= |b| && |x| == BMAX + 1
      invariant forall L :: 1 <= L <= g ==> x[L] == Off(b, L) + Count(b[..i], L)
      invariant forall L: nat, r: nat :: 1 <= L <= g && r < Count(b[..i], L) ==> Placed(b, v[..], L, r)
    {
      var j := b[i];
      ghost var v0, x1 := v[..], x;
      forall L: nat | 1 <= L <= g
        ensures Count(b[..i + 1], L) == Count(b[..i], L) + if j == L then 1 else 0
      {
        CountPrefix(b, i, L);
      }
      if j != 0 {
        ValueFits(b, i, j, 0);
        v[x[j]] := i;
        x := x[j := x[j] + 1];
        forall L: nat, r: nat | 1 <= L <= g && r < Count(b[..i + 1], L)
          ensures Placed(b, v[..], L, r)
        {
          if L == j && r == Count(b[..i], j) {
            NthRank(b, i);
          } else {
            ValueFits(b, i, L, r);
            assert Placed(b, v0, L, r);
          }
        }
      }
      i := i + 1;
    }
    assert b[..i] == b;
  }

  /** Where the value of symbol i goes is inside v, and is not the place of
      the r-th value of length L. */
  lemma ValueFits(b: seq<nat>, i: nat, L: nat, r: nat)
    requires i < |b| && 1 <= b[i] && 1 <= L
    ensures Off(b, b[i]) + Count(b[..i], b[i]) < |b|
    ensures r < Count(b[..i], L) ==> Off(b, L) + r < |b| && Off(b, L) + r != Off(b, b[i]) + Count(b[..i], b[i])
  {
    RankBound(b, i);
    CountPrefix(b, i, L);
    OffBound(b, b[i] + 1);
    OffBound(b, L + 1);
    if L < b[i] { OffMono(b, L, b[i]); }
    if b[i] < L { OffMono(b, b[i], L); }
  }

  // ----- the code register -----

  lemma {:induction false} RevSetBit(k: nat, t: nat, v: nat)
    requires t < k && v < Pow2(t)
    ensures Rev(k, v + Pow2(t)) == Rev(k, v) + Pow2(k - 1 - t)
  {
    if t == 0 {
      RevOfZero(k);
      RevOfZero(k - 1);
    } else {
      RevSetBit(k - 1, t - 1, v / 2);
      assert (v + Pow2(t)) / 2 == v / 2 + Pow2(t - 1);
    }
  }

  lemma TopBit(v: nat, t: nat)
    requires v < Pow2(t + 1)
    ensures Shr(v, t) % 2 == 1 ==> Pow2(t) <= v && v - Pow2(t) < Pow2(t)
    ensures Shr(v, t) % 2 == 0 ==> v < Pow2(t)
  {
    LowShr(v, t);
    LowBound(v, t);
    ShrBound(v, t, 1);
    ShlZero(t);
  }

  /** Backwards increment the k-bit code i: the loop clears the run of ones at
      the top and sets the bit below it.  The mask j of the source is 1 << t,
      and 0 once t is -1. */
  method BackIncrement(i0: nat, k: nat) returns (i: nat)
    requires 1 <= k && i0 < Pow2(k)
    ensures i < Pow2(k)
    ensures Rev(k, i0) + 1 < Pow2(k) ==> Rev(k, i) == Rev(k, i0) + 1
    ensures Rev(k, i0) + 1 >= Pow2(k) ==> i == 0
  {
    i := i0;
    var t: int := k - 1;
    while t >= 0 && Shr(i, t) % 2 == 1
      invariant -1 <= t < k && i < Pow2(t + 1)
      invariant Rev(k, i0) + 1 == Rev(k, i) + Pow2(k - 1 - t)
    {
      TopBit(i, t);
      RevSetBit(k, t, i - Pow2(t));
      i := i - Pow2(t);
      t := t - 1;
    }
    if t >= 0 {
      TopBit(i, t);
      RevSetBit(k, t, i);
      i := i + Pow2(t);
      Pow2Mono(t + 1, k);
      RevBound(k, i);
    } else {
      RevOfZero(k);
    }
  }

  /** Fill code-like entries with r. */
  method FillEntries(hp: array<Huft>, q: nat, z: nat, a: nat, n: nat, r: Huft)
    requires q + z <= hp.Length && a < Pow2(n)
    modifies hp
    ensures forall p: nat :: p < hp.Length && !(q <= p < q + z) ==> hp[p] == old(hp[p])
    ensures forall idx: nat :: idx < z ==> hp[q + idx] == if Low(idx, n) == a then r else old(hp[q + idx])
  {
    var f := Pow2(n);
    var j := a;
    ghost var m := 0;
    ShlZero(n);
    while j < z
      invariant j == a + Shl(m, n)
      invariant forall p: nat :: p < hp.Length && !(q <= p < q + z) ==> hp[p] == old(hp[p])
      invariant forall idx: nat :: idx < z ==>
        hp[q + idx] == if Low(idx, n) == a && Shr(idx, n) < m then r else old(hp[q + idx])
    {
      LowJoin(a, m, n);
      forall idx: nat | Low(idx, n) == a && Shr(idx, n) == m ensures idx == j { LowShr(idx, n); }
      hp[q + j] := r;
      ShlAdd(m, 1, n);
      j := j + f;
      m := m + 1;
    }
    forall idx: nat | idx < z && Low(idx, n) == a
      ensures Shr(idx, n) < m
    {
      LowShr(idx, n);
      ShlMono(m, Shr(idx, n), n);
    }
  }

  // ----- opening tables -----

  /** What the locals of huft_build stand for, with the r-th code of length k
      about to be placed and all tables in hp[lo..hn]. */
  ghost predicate Inv(c: Layout, T: seq<Huft>, dir: seq<Tab>, st: seq<nat>, u: seq<nat>, x: seq<nat>,
                      h: int, w: int, i: nat, k: nat, r: nat, lo: nat, hn: nat)
  {
    && c.Valid() && AtCode(c, k, r, i) && hn <= |T|
    && Directory(c, dir, lo, hn) && Stack(c, dir, st, u, x, i) && Links(c, T, dir, st)
    && Closed(c, dir, st, c.Start(k, r))
    && Slots(c, T, dir, c.Start(k, r))
    && Tiled(dir, lo, hn) && OnePerRegion(dir) && Kept(c, T, dir, hn)
    && h == |st| - 1
    && (if h < 0 then w + c.l == 0 && dir == [] else
          && st[h] < |dir| && w == dir[st[h]].w < k && dir[0].base == lo && dir[0].w == 0 && dir[0].pre == 0)
    && 0 <= w + c.l && i < Pow2(w + c.l) && IsLevel(c.l, w + c.l)
  }

  /** Compute minimum size table less than or equal to l bits: start from
      k - w bits and deduct the codes of each length from the patterns left. */
  method TableBits(ghost c: Layout, cc: seq<nat>, g: nat, l: nat, k: nat, a: nat, w: nat, ghost r: nat, ghost i: nat)
    returns (j: nat)
    requires c.Valid() && g == c.g && l == c.l && |cc| == BMAX + 1
    requires forall L :: 1 <= L <= g ==> cc[L] == c.Codes(L)
    requires 1 <= k <= g && r < c.Codes(k) && a + 1 == c.Codes(k) - r && w < k && PatLo(g, w, i) == c.Start(k, r)
    requires IsLevel(c.l, w)
    ensures 1 <= j && w + j <= g && Fits(c, j, w, i) && Sized(c, j, w, i)
  {
    hide Layout.Start, PatLo, PatHi, Fits, Deep, Begins, IsLevel, NextCode, Count;
    var z := if g - w > l then l else g - w;
    j := k - w;
    var f := Pow2(j);
    PatWidth(g, w, i);
    HiAtMost(g, w, i);
    DeepOrNot(c, k, r, w, i);
    StartBelow(c, k, r, w, i);
    if f > a + 1 {
      FirstDeduction(c, k, r, a, w);
      if j < z {
        j := MoreBits(c, cc, g, k, w, f - (a + 1), j + 1, z, r, i);
      } else {
        FitsLevel(c, k, r, j, w, i);
      }
    } else {
      EnoughAtOnce(c, k, r, a, w);
      FitsEnough(c, k, r, j, w, i);
    }
  }

  /** Try smaller tables up to z bits. */
  method MoreBits(ghost c: Layout, cc: seq<nat>, g: nat, k: nat, w: nat, f0: nat, j0: nat, z: nat, ghost r: nat,
          ghost i: nat) returns (j: nat)
    requires c.Valid() && g == c.g && |cc| == BMAX + 1
    requires forall L :: 1 <= L <= g ==> cc[L] == c.Codes(L)
    requires 1 <= k <= g && w < k < w + j0 && PatLo(g, w, i) == c.Start(k, r)
    requires j0 <= z && w + z <= g && (z >= c.l || w + z == g) && 0 < f0
    requires Shl(f0, g - (w + j0) + 1) + c.Start(w + j0, 0) == PatHi(g, w, i)
    ensures j0 <= j <= z && Fits(c, j, w, i) && c.Start(w + j, 0) < PatHi(g, w, i)
  {
    j := j0;
    var f := f0;
    while j < z
      invariant j0 <= j <= z && 0 < f
      invariant Shl(f, g - (w + j) + 1) + c.Start(w + j, 0) == PatHi(g, w, i)
    {
      Deduct(c, w + j, f, PatHi(g, w, i));
      ShlGrows(f, g - (w + j) + 1);
      f := 2 * f;
      if f <= cc[w + j] {
        FitsEnough(c, k, r, j, w, i);
        return;
      }
      f := f - cc[w + j];
      j := j + 1;
    }
    FitsLevel(c, k, r, j, w, i);
    ShlGrows(f, g - (w + j) + 1);
  }

  lemma {:induction false} ShlGrows(f: nat, n: nat)
    requires f > 0
    ensures Shl(f, n) > 0
  {
    if n > 0 { ShlGrows(f, n - 1); }
  }

  lemma StartBelow(c: Layout, k: nat, r: nat, w: nat, i: nat)
    requires c.Valid() && IsCode(c, k, r) && w < k && PatLo(c.g, w, i) == c.Start(k, r)
    ensures c.Start(k, 0) < PatHi(c.g, w, i)
  {
    PatWidth(c.g, w, i);
    ShlPositive(c.g - w);
    StartAdd(c, k, 0, r);
  }

  /** One more bit doubles the patterns left; the codes of that length use some. */
  lemma Deduct(c: Layout, L: nat, f: nat, lim: nat)
    requires c.Valid() && 1 <= L <= c.g && Shl(f, c.g - L + 1) + c.Start(L, 0) == lim
    ensures 2 * f <= c.Codes(L) ==> c.Start(L, c.Codes(L)) >= lim
    ensures 2 * f > c.Codes(L) && L < c.g ==> Shl(2 * f - c.Codes(L), c.g - L) + c.Start(L + 1, 0) == lim
  {
    ShlDouble(f, c.g - L);
    StartAdd(c, L, 0, c.Codes(L));
    ShlMono(2 * f, c.Codes(L), c.g - L);
    if 2 * f > c.Codes(L) && L < c.g {
      ShlAdd(2 * f - c.Codes(L), c.Codes(L), c.g - L);
      StartNext(c, L);
    }
  }

  lemma EnoughAtOnce(c: Layout, k: nat, r: nat, a: nat, w: nat)
    requires c.Valid() && 1 <= k <= c.g && w < k && a + 1 == c.Codes(k) - r && Pow2(k - w) <= a + 1
    ensures c.Start(k, c.Codes(k)) >= c.Start(k, r) + Pow2(c.g - w)
  {
    StartAdd(c, k, r, a + 1);
    ShlMono(Pow2(k - w), a + 1, c.g - k);
    ShlShl(1, k - w, c.g - k);
  }

  lemma FirstDeduction(c: Layout, k: nat, r: nat, a: nat, w: nat)
    requires c.Valid() && 1 <= k <= c.g && w < k && a + 1 == c.Codes(k) - r && Pow2(k - w) > a + 1
    ensures Shl(Pow2(k - w) - (a + 1), c.g - k) + c.Start(k, c.Codes(k)) == c.Start(k, r) + Pow2(c.g - w)
    ensures k < c.g ==> c.Start(k + 1, 0) == c.Start(k, c.Codes(k))
  {
    if k < c.g { StartNext(c, k); }
    StartAdd(c, k, r, a + 1);
    ShlAdd(Pow2(k - w) - (a + 1), a + 1, c.g - k);
    ShlShl(1, k - w, c.g - k);
  }

  lemma DirectoryGrows(c: Layout, dir: seq<Tab>, lo: nat, hn: nat, child: Tab)
    requires Directory(c, dir, lo, hn) && child.base == hn && TabOK(c, child, lo, hn + Pow2(child.jb))
    ensures Directory(c, dir + [child], lo, hn + Pow2(child.jb))
  {
    var dir', hi := dir + [child], hn + Pow2(child.jb);
    forall t | 0 <= t < |dir'|
      ensures TabOK(c, dir'[t], lo, hi)
    {
      if t < |dir| { assert TabOK(c, dir[t], lo, hn); }
    }
    forall t, t' | 0 <= t < t' < |dir'|
      ensures dir'[t].base + Pow2(dir'[t].jb) <= dir'[t'].base
    {
      if t' == |dir| { assert TabOK(c, dir[t], lo, hn); }
    }
  }

  lemma StackGrows(c: Layout, dir: seq<Tab>, st: seq<nat>, u: seq<nat>, x: seq<nat>, i: nat, child: Tab)
    requires Stack(c, dir, st, u, x, i) && |st| < 15 && |st| <= child.w
    requires child.pre == i && i < Pow2(child.w)
    requires |st| == 0 ==> child.w == 0
    requires |st| > 0 ==> st[|st| - 1] < |dir| && child.w == dir[st[|st| - 1]].w + c.l && dir[st[|st| - 1]].jb >= c.l
    ensures Stack(c, dir + [child], st + [|dir|], u[|st| := child.base], x[|st| := i], i)
  {
    LowSmall(i, child.w);
    var dir', st', u', x' := dir + [child], st + [|dir|], u[|st| := child.base], x[|st| := i];
    forall j: nat | j < |st'|
      ensures OnStack(c, dir', st', u', x', i, j)
    {
      if j < |st| { assert OnStack(c, dir, st, u, x, i, j); }
    }
  }

  lemma LinksGrow(c: Layout, T: seq<Huft>, U: seq<Huft>, dir: seq<Tab>, lo: nat, hn: nat, st: seq<nat>, u: seq<nat>,
          x: seq<nat>,
                  i: nat, child: Tab)
    requires Directory(c, dir, lo, hn) && Stack(c, dir, st, u, x, i) && Links(c, T, dir, st) && |T| == |U|
    requires |st| == 0 ==> U == T
    requires |st| > 0 ==> st[|st| - 1] < |dir| && var top := dir[st[|st| - 1]];
      && child.pre == i && Shr(i, top.w) < Pow2(top.jb)
      && var at := top.base + Shr(i, top.w);
        at < |T| && at < child.base && U == T[at := Huft(child.jb, c.l, child.base - at)]
    ensures Links(c, U, dir + [child], st + [|dir|])
  {
    hide Shr, Shl, Sized, Fits, TabOK, OnStack;
    var dir', st' := dir + [child], st + [|dir|];
    forall j: nat | 1 <= j < |st'|
      ensures LinkOn(c, U, dir', st', j)
    {
      if j < |st| {
        assert LinkOn(c, T, dir, st, j);
        LinkInTable(c, dir, lo, hn, st, u, x, i, j);
        StackOrder(c, dir, st, u, x, i, j - 1, |st| - 1);
      }
    }
  }

  /** The slot of the innermost open table that leads on for the code i. */
  lemma ParentSlot(c: Layout, T: seq<Huft>, dir: seq<Tab>, st: seq<nat>, u: seq<nat>, x: seq<nat>,
                   h: int, w: int, i: nat, k: nat, r: nat, lo: nat, hn: nat)
    requires Inv(c, T, dir, st, u, x, h, w, i, k, r, lo, hn) && h >= 0 && r < c.Codes(k) && k > w + c.l
    ensures st[h] < |dir| && h < 15 && w >= h && dir[st[h]].jb >= c.l && u[h] == dir[st[h]].base
    ensures Shr(i, w) < Pow2(dir[st[h]].jb)
    ensures lo <= u[h] && u[h] + Shr(i, w) < hn
  {
    hide Rev, Shl, Low, NextCode, Count;
    assert OnStack(c, dir, st, u, x, i, h);
    TopHolds(c, dir, lo, hn, st[h], k, r, i);
    assert TabOK(c, dir[st[h]], lo, hn);
    ShrBound(i, w, c.l);
    Pow2Mono(c.l, dir[st[h]].jb);
  }

  lemma OpenShape(c: Layout, T: seq<Huft>, U: seq<Huft>, dir: seq<Tab>, st: seq<nat>, u: seq<nat>, x: seq<nat>,
                  h: int, w: int, i: nat, k: nat, r: nat, lo: nat, hn: nat, child: Tab)
    requires Inv(c, T, dir, st, u, x, h, w, i, k, r, lo, hn) && r < c.Codes(k) && k > w + c.l && |U| == |T|
    requires TabOK(c, child, lo, hn + Pow2(child.jb)) && child.base == hn && child.w == w + c.l && child.pre == i
    requires h < 0 ==> U == T
    requires h >= 0 ==>
      h < |u| && u[h] + Shr(i, w) < hn && U == T[u[h] + Shr(i, w) := Huft(child.jb, c.l, hn - (u[h] + Shr(i, w)))]
    ensures |u| == 15 && |x| == 16 && h + 1 < 15
    ensures Directory(c, dir + [child], lo, hn + Pow2(child.jb))
    ensures Stack(c, dir + [child], st + [|dir|], u[h + 1 := hn], x[h + 1 := i], i)
    ensures Links(c, U, dir + [child], st + [|dir|])
    ensures Closed(c, dir + [child], st + [|dir|], c.Start(k, r))
  {
    hide Rev, Low, Shr, Fits, NextCode, Count, SlotDone;
    if h >= 0 { ParentSlot(c, T, dir, st, u, x, h, w, i, k, r, lo, hn); }
    DirectoryGrows(c, dir, lo, hn, child);
    StackGrows(c, dir, st, u, x, i, child);
    LinksGrow(c, T, U, dir, lo, hn, st, u, x, i, child);
    OpenClosed(c, dir, st, child, c.Start(k, r));
  }

  lemma LevelUp(l: nat, w: nat)
    requires 1 <= l && IsLevel(l, w)
    ensures IsLevel(l, w + l)
  {
  }

  /** Allocating and linking a table of the right size keeps the invariant. */
  lemma OpenInv(c: Layout, T: seq<Huft>, U: seq<Huft>, dir: seq<Tab>, st: seq<nat>, u: seq<nat>, x: seq<nat>,
                h: int, w: int, i: nat, k: nat, r: nat, lo: nat, hn: nat, j: nat)
    requires Inv(c, T, dir, st, u, x, h, w, i, k, r, lo, hn) && r < c.Codes(k) && k > w + c.l
    requires 1 <= j && w + c.l + j <= c.g && Fits(c, j, w + c.l, i) && Sized(c, j, w + c.l, i)
    requires |U| == |T| && hn + Pow2(j) <= |T|
    requires h < 0 ==> U == T
    requires h >= 0 ==>
      h < |u| && u[h] + Shr(i, w) < hn && U == T[u[h] + Shr(i, w) := Huft(j, c.l, hn - (u[h] + Shr(i, w)))]
    ensures |u| == 15 && |x| == 16 && h + 1 < 15
    ensures Inv(c, U, dir + [Tab(hn, j, w + c.l, i)], st + [|dir|], u[h + 1 := hn], x[h + 1 := i], h + 1, w + c.l, i, k,
      r, lo, hn + Pow2(j))
  {
    hide Rev, Low, Shr, Fits, NextCode, Count, Stack, Links, Closed, Slots, Sized, Kept, OnePerRegion, Tiled;
    LevelUp(c.l, w + c.l);
    NoTables(dir, lo, hn);
    var child := Tab(hn, j, w + c.l, i);
    assert TabOK(c, child, lo, hn + Pow2(j));
    OpenShape(c, T, U, dir, st, u, x, h, w, i, k, r, lo, hn, child);
    OpenSlots(c, T, U, dir, st, u, x, h, w, i, k, r, lo, hn, child);
    OpenMore(c, T, U, dir, st, u, x, h, w, i, k, r, lo, hn, child);
    Pow2Mono(w + c.l, w + c.l + c.l);
  }

  lemma NoTables(dir: seq<Tab>, lo: nat, hn: nat)
    requires Tiled(dir, lo, hn)
    ensures dir == [] ==> hn == lo
  {
  }

  lemma OpenClosed(c: Layout, dir: seq<Tab>, st: seq<nat>, child: Tab, S: nat)
    requires Closed(c, dir, st, S)
    ensures Closed(c, dir + [child], st + [|dir|], S)
  {
    var st' := st + [|dir|];
    assert st'[|st|] == |dir|;
    forall t: nat | t < |dir| + 1 && t !in st'
      ensures PatHi(c.g, (dir + [child])[t].w, (dir + [child])[t].pre) <= S
    {
      assert forall y :: y in st ==> y in st';
    }
  }

  lemma OpenSlots(c: Layout, T: seq<Huft>, U: seq<Huft>, dir: seq<Tab>, st: seq<nat>, u: seq<nat>, x: seq<nat>,
                  h: int, w: int, i: nat, k: nat, r: nat, lo: nat, hn: nat, child: Tab)
    requires Inv(c, T, dir, st, u, x, h, w, i, k, r, lo, hn) && r < c.Codes(k) && k > w + c.l
    requires TabOK(c, child, lo, |T|) && child.base == hn && child.w == w + c.l && child.pre == i && |U| == |T|
    requires h < 0 ==> U == T
    requires h >= 0 ==>
      h < |u| && u[h] + Shr(i, w) < hn && U == T[u[h] + Shr(i, w) := Huft(child.jb, c.l, hn - (u[h] + Shr(i, w)))]
    ensures Slots(c, U, dir + [child], c.Start(k, r))
  {
    hide Rev, Shl, Low, Shr, Fits, NextCode, Count, SlotDone;
    if h >= 0 { ParentSlot(c, T, dir, st, u, x, h, w, i, k, r, lo, hn); }
    CodeRegion(c, k, r, i);
    FreshRegion(c.g, child.w, k, i);
    OpenStep(c, T, U, dir, lo, hn, st, u, x, child, i, c.Start(k, r));
  }

  lemma OpenMore(c: Layout, T: seq<Huft>, U: seq<Huft>, dir: seq<Tab>, st: seq<nat>, u: seq<nat>, x: seq<nat>,
                 h: int, w: int, i: nat, k: nat, r: nat, lo: nat, hn: nat, child: Tab)
    requires Inv(c, T, dir, st, u, x, h, w, i, k, r, lo, hn) && r < c.Codes(k) && k > w + c.l
    requires child.base == hn && child.w == w + c.l && child.pre == i && |U| == |T| && hn + Pow2(child.jb) <= |T|
    requires h < 0 ==> U == T
    requires h >= 0 ==>
      h < |u| && u[h] + Shr(i, w) < hn && U == T[u[h] + Shr(i, w) := Huft(child.jb, c.l, hn - (u[h] + Shr(i, w)))]
    ensures Tiled(dir + [child], lo, hn + Pow2(child.jb)) && OnePerRegion(dir + [child])
    ensures Kept(c, U, dir + [child], hn + Pow2(child.jb))
  {
    hide Rev, Shl, Low, Shr, Fits, NextCode, Count, Slots, Links, Sized;
    TiledGrows(dir, lo, hn, child);
    CodeRegion(c, k, r, i);
    FreshRegion(c.g, child.w, k, i);
    RegionNew(c, dir, lo, hn, st, u, x, i, child, c.Start(k, r));
    if h >= 0 {
      ParentSlot(c, T, dir, st, u, x, h, w, i, k, r, lo, hn);
      ShrBound(i, w, c.l);
      OpenKept(c, T, U, dir, lo, hn, child, st[h], Shr(i, w));
    } else {
      OpenKept(c, T, U, dir, lo, hn, child, 0, 0);
    }
  }

  /** What huft_build has once it begins to generate tables: the counts with the
      dummy codes, the number of values, the greatest length, the bits for a table,
      and what the symbols mean. */
  datatype Fixed = Fixed(cc: seq<nat>, n: nat, g: nat, l: nat, m: Meaning)

  ghost predicate Describes(f: Fixed, c: Layout) {
    && c.Valid() && f.g == c.g && f.l == c.l && f.m == c.m && f.n == Off(c.lens, c.g) + Count(c.lens, c.g)
    && |f.cc| == BMAX + 1 && forall L :: 1 <= L <= c.g ==> f.cc[L] == c.Codes(L)
  }

  /** The locals that change while tables are generated. */
  datatype Locals = Locals(i: nat, hn: nat, h: int, w: int, q: nat, z: nat, x: seq<nat>, u: seq<nat>, p: nat,
          rbase: nat)

  /** All tables so far, and which of them are open. */
  datatype Tables = Tables(dir: seq<Tab>, st: seq<nat>)

  /** The r-th code of length k is about to be placed. */
  ghost predicate Placing(c: Layout, T: seq<Huft>, s: Locals, t: Tables, k: nat, r: nat, lo: nat) {
    Inv(c, T, t.dir, t.st, s.u, s.x, s.h, s.w, s.i, k, r, lo, s.hn) && lo <= s.hn
  }

  /** The tables that the code calls for take up the space from lo to hn, and the
      next one is too large for what is left. */
  ghost predicate NoRoom(c: Layout, lo: nat, hn: nat) {
    exists dir: seq<Tab>, child: Tab :: TooLarge(c, dir, child, lo, hn)
  }

  ghost predicate TooLarge(c: Layout, dir: seq<Tab>, child: Tab, lo: nat, hn: nat) {
    && Directory(c, dir, lo, hn) && Tiled(dir, lo, hn) && OnePerRegion(dir + [child])
    && child.base == hn && TabOK(c, child, lo, hn + Pow2(child.jb)) && hn + Pow2(child.jb) > MANY
  }

  lemma RoomGone(c: Layout, T: seq<Huft>, s: Locals, t: Tables, k: nat, r: nat, lo: nat, j: nat)
    requires Placing(c, T, s, t, k, r, lo) && r < c.Codes(k) && k > s.w + c.l
    requires 1 <= j && s.w + c.l + j <= c.g && Fits(c, j, s.w + c.l, s.i) && Sized(c, j, s.w + c.l, s.i)
    requires s.hn + Pow2(j) > MANY
    ensures NoRoom(c, lo, s.hn)
  {
    hide Rev, Shl, Low, Shr, Fits, NextCode, Count, Slots, Links, Sized, Kept;
    var child := Tab(s.hn, j, s.w + c.l, s.i);
    CodeRegion(c, k, r, s.i);
    FreshRegion(c.g, child.w, k, s.i);
    RegionNew(c, t.dir, lo, s.hn, t.st, s.u, s.x, s.i, child, c.Start(k, r));
    assert TooLarge(c, t.dir, child, lo, s.hn);
  }

  lemma OpenSize(c: Layout, T: seq<Huft>, s: Locals, t: Tables, k: nat, r: nat, lo: nat)
    requires Placing(c, T, s, t, k, r, lo) && r < c.Codes(k) && k > s.w + c.l
    ensures 0 <= s.w + c.l < k && PatLo(c.g, s.w + c.l, s.i) == c.Start(k, r) && IsLevel(c.l, s.w + c.l)
      && 1 <= k <= c.g
    ensures c.Valid() && s.hn <= |T| && s.h >= -1 && s.h == |t.st| - 1
  {
    hide Rev, Shl, Low, Shr, NextCode, Count, Links, Closed, Slots, Tiled, OnePerRegion, Kept, Stack, Directory;
    CodeRegion(c, k, r, s.i);
    FreshRegion(c.g, s.w + c.l, k, s.i);
  }

  lemma OpenAt(c: Layout, T: seq<Huft>, s: Locals, t: Tables, k: nat, r: nat, lo: nat)
    requires Placing(c, T, s, t, k, r, lo) && r < c.Codes(k) && k > s.w + c.l && s.h >= 0
    ensures s.h < |s.u| && s.w >= 0 && lo <= s.u[s.h] && s.u[s.h] + Shr(s.i, s.w) < s.hn <= |T|
  {
    hide Slots, Links, Directory;
    ParentSlot(c, T, t.dir, t.st, s.u, s.x, s.h, s.w, s.i, k, r, lo, s.hn);
  }

  /** One more level for the code i: choose its size, allocate it after the
      tables in use and connect it to the innermost open one.  Fails when the
      space for trees is used up. */
  method OpenTable(ghost c: Layout, f: Fixed, hp: array<Huft>, k: nat, a: nat, s: Locals, ghost r: nat, ghost t: Tables,
          ghost lo: nat)
    returns (ok: bool, s': Locals, ghost t': Tables)
    requires Placing(c, hp[..], s, t, k, r, lo) && Describes(f, c)
    requires r < c.Codes(k) && a + 1 == c.Codes(k) - r && k > s.w + f.l && hp.Length >= MANY
    modifies hp
    ensures forall j: nat :: j < hp.Length && (j < lo || j >= s'.hn) ==> hp[j] == old(hp[j])
    ensures s.hn <= s'.hn && (if ok then Placing(c, hp[..], s', t', k, r, lo) else s' == s && NoRoom(c, lo, s.hn))
    ensures ok ==> t'.st == t.st + [|t.dir|] && |t'.dir| == |t.dir| + 1
    ensures ok ==>
      s'.w == s.w + f.l && s'.q == t'.dir[|t.dir|].base && s'.z == Pow2(t'.dir[|t.dir|].jb) && s'.h == s.h + 1
    ensures s'.i == s.i && s'.p == s.p
    ensures f.g <= f.l ==> s'.rbase == s.rbase && (if ok then s'.hn <= lo + Pow2(f.l) else lo + Pow2(f.l) > MANY)
  {
    hide Rev, Low, NextCode, Count, Fits, Slots, Directory, Links, Kept, Sized, Placing, NoRoom;
    var w := s.w + f.l;
    OpenSize(c, hp[..], s, t, k, r, lo);
    var j := TableBits(c, f.cc, f.g, f.l, k, a, w, r, s.i);
    var z := Pow2(j);
    if f.g <= f.l { OneLevel(c, hp[..], s, t, k, r, lo, j); }
    ok, s', t' := s.hn + z <= MANY, s, t;
    if ok {
      ghost var T := hp[..];
      var rbase := s.rbase;
      if s.h >= 0 {
        OpenAt(c, T, s, t, k, r, lo);
        var at := s.u[s.h] + Shr(s.i, s.w);
        hp[at] := Huft(j, f.l, s.hn - at);
        rbase := s.hn - at;
      }
      LevelsLeft(c, T, s, t, k, r, lo);
      s' := s.(hn := s.hn + z, h := s.h + 1, w := w, q := s.hn, z := z, x := s.x[s.h + 1 := s.i],
        u := s.u[s.h + 1 := s.hn], rbase := rbase);
      t' := Tables(t.dir + [Tab(s.hn, j, w, s.i)], t.st + [|t.dir|]);
      Opened(c, T, hp[..], s, t, k, r, lo, j, s', t');
    } else {
      RoomGone(c, hp[..], s, t, k, r, lo, j);
    }
  }

  /** With one level only the first table is opened. */
  lemma OneLevel(c: Layout, T: seq<Huft>, s: Locals, t: Tables, k: nat, r: nat, lo: nat, j: nat)
    requires Placing(c, T, s, t, k, r, lo) && r < c.Codes(k) && k > s.w + c.l && c.g <= c.l && s.w + c.l + j <= c.g
    ensures s.h < 0 && s.hn == lo && Pow2(j) <= Pow2(c.l)
  {
    Pow2Mono(j, c.l);
  }

  lemma Opened(c: Layout, T: seq<Huft>, U: seq<Huft>, s: Locals, t: Tables, k: nat, r: nat, lo: nat, j: nat, s': Locals,
          t': Tables)
    requires Placing(c, T, s, t, k, r, lo) && r < c.Codes(k) && k > s.w + c.l
    requires 1 <= j && s.w + c.l + j <= c.g && Fits(c, j, s.w + c.l, s.i) && Sized(c, j, s.w + c.l, s.i)
    requires |U| == |T| && s.hn + Pow2(j) <= |T|
    requires s.h < 0 ==> U == T
    requires s.h >= 0 ==> s.h < |s.u| && s.w >= 0 && s.u[s.h] + Shr(s.i, s.w) < s.hn
                          && U == T[s.u[s.h] + Shr(s.i, s.w) := Huft(j, c.l, s.hn - (s.u[s.h] + Shr(s.i, s.w)))]
    requires 0 <= s.h + 1 < |s.x| && s.h + 1 < |s.u|
    requires s'
      == s.(hn := s.hn + Pow2(j), h := s.h + 1, w := s.w + c.l, x := s.x[s.h + 1 := s.i], u := s.u[s.h + 1 := s.hn],
                      q := s'.q, z := s'.z, rbase := s'.rbase)
    requires t' == Tables(t.dir + [Tab(s.hn, j, s.w + c.l, s.i)], t.st + [|t.dir|])
    ensures Placing(c, U, s', t', k, r, lo)
  {
    hide Inv, Fits, Sized, Shr, IsLevel, Layout.Valid, Layout.Codes;
    OpenInv(c, T, U, t.dir, t.st, s.u, s.x, s.h, s.w, s.i, k, r, lo, s.hn, j);
  }

  /** There are at most 15 levels. */
  lemma LevelsLeft(c: Layout, T: seq<Huft>, s: Locals, t: Tables, k: nat, r: nat, lo: nat)
    requires Placing(c, T, s, t, k, r, lo) && r < c.Codes(k) && k > s.w + c.l
    ensures 0 <= s.h + 1 < 15 && |s.x| == 16 && |s.u| == 15
  {
    hide Slots, Links, Kept, Tiled, OnePerRegion;
    if s.h >= 0 { ParentSlot(c, T, t.dir, t.st, s.u, s.x, s.h, s.w, s.i, k, r, lo, s.hn); }
  }

  // ----- placing codes -----

  /** p counts the real values placed; rbase is what the entry register last
      held as a base. */
  ghost predicate Values(c: Layout, v: seq<nat>, k: nat, r: nat, p: nat, rbase: nat) {
    && c.Valid() && 1 <= k <= c.g && Sorted(c.lens, c.g, v)
    && p == Off(c.lens, k) + (if r < Count(c.lens, k) then r else Count(c.lens, k))
    && (c.g <= c.l && p > 0 ==> p <= |v| && v[p - 1] < |c.lens| && rbase == c.m.Entry(v[p - 1], 0).base)
  }

  /** Set up the table entry for the r-th code of length k. */
  method MakeEntry(ghost c: Layout, m: Meaning, v: array<nat>, n: nat, p: nat, k: nat, w: nat, rbase: nat, ghost r: nat)
    returns (e: Huft, p': nat, rbase': nat)
    requires c.Valid() && m == c.m && 1 <= k <= c.g && r < c.Codes(k) && w < k
    requires Values(c, v[..], k, r, p, rbase) && n == Off(c.lens, c.g) + Count(c.lens, c.g)
    ensures c.Leaf(e, k, r, w) && e.bits == k - w
    ensures Values(c, v[..], k, r + 1, p', rbase')
  {
    hide NextCode, Nth, Pow2, Kraft;
    if k < c.g { OffMono(c.lens, k, c.g); }
    assert r < Count(c.lens, k) ==> Placed(c.lens, v[..], k, r);
    if p >= n {
      assert Placed(c.lens, v[..], c.g, Count(c.lens, c.g) - 1);
      e := Huft(128 + 64, k - w, rbase);
      p', rbase' := p, rbase;
    } else {
      e := m.Entry(v[p], k - w);
      p', rbase' := p + 1, e.base;
    }
  }

  /** The stack as seen from a code that still lies in its innermost table. */
  lemma StackMoves(c: Layout, dir: seq<Tab>, st: seq<nat>, u: seq<nat>, x: seq<nat>, i: nat, i': nat)
    requires Stack(c, dir, st, u, x, i) && |st| > 0 && st[|st| - 1] < |dir|
    requires Low(i', dir[st[|st| - 1]].w) == dir[st[|st| - 1]].pre
    ensures Stack(c, dir, st, u, x, i')
  {
    hide Shl, Rev;
    forall j: nat | j < |st|
      ensures OnStack(c, dir, st, u, x, i', j)
    {
      assert OnStack(c, dir, st, u, x, i, j);
      assert OnStack(c, dir, st, u, x, i, |st| - 1);
      StackOrder(c, dir, st, u, x, i, j, |st| - 1);
      var w, top := dir[st[j]].w, dir[st[|st| - 1]].w;
      LowLow(i, w, top);
      LowLow(i', w, top);
    }
  }

  lemma StackPrefix(c: Layout, dir: seq<Tab>, st: seq<nat>, u: seq<nat>, x: seq<nat>, i: nat, n: nat)
    requires Stack(c, dir, st, u, x, i) && n <= |st|
    ensures Stack(c, dir, st[..n], u, x, i)
  {
    forall j: nat | j < n
      ensures OnStack(c, dir, st[..n], u, x, i, j)
    {
      assert OnStack(c, dir, st, u, x, i, j);
    }
  }

  /** The open tables while backing up from code i, whose table is complete up
      to the next code i'. */
  ghost predicate Backing(c: Layout, T: seq<Huft>, dir: seq<Tab>, st: seq<nat>, u: seq<nat>, x: seq<nat>, k: nat,
          r: nat,
                          i: nat, i': nat, h: int, w: int)
  {
    && Stack(c, dir, st, u, x, i) && Links(c, T, dir, st) && c.Valid() && 1 <= k <= c.g
      && Closed(c, dir, st, c.Start(k, r + 1))
    && 0 <= h == |st| - 1 && st[h] < |dir| && 0 <= w == dir[st[h]].w < k && i' < Pow2(w + c.l)
  }

  /** One table closed: the next code does not begin with its bits. */
  lemma PopStep(c: Layout, T: seq<Huft>, dir: seq<Tab>, st: seq<nat>, u: seq<nat>, x: seq<nat>, k: nat, r: nat, i: nat,
          i': nat,
                h: int, w: int, lo: nat, hn: nat)
    requires c.Valid() && AtCode(c, k, r, i) && r < c.Codes(k) && AtCode(c, k, r + 1, i')
    requires Directory(c, dir, lo, hn) && Backing(c, T, dir, st, u, x, k, r, i, i', h, w) && Low(i', w) != x[h]
    ensures h >= 1 && k > w - c.l + c.l && Backing(c, T, dir, st[..h], u, x, k, r, i, i', h - 1, w - c.l)
  {
    hide Rev, Shl, NextCode, Count, Fits;
    assert OnStack(c, dir, st, u, x, i, h);
    assert TabOK(c, dir[st[h]], lo, hn);
    PopTable(c, dir[st[h]], lo, hn, k, r, i, i');
    PopClosed(c, dir, st, h, c.Start(k, r + 1));
    StackPrefix(c, dir, st, u, x, i, h);
    LinksPrefix(c, T, dir, st, h);
    if h > 0 { assert OnStack(c, dir, st, u, x, i, h - 1); }
  }

  lemma PopClosed(c: Layout, dir: seq<Tab>, st: seq<nat>, h: nat, S: nat)
    requires h == |st| - 1 && st[h] < |dir| && Closed(c, dir, st, S)
    requires PatHi(c.g, dir[st[h]].w, dir[st[h]].pre) <= S
    ensures Closed(c, dir, st[..h], S)
  {
    assert forall y :: y in st ==> y in st[..h] || y == st[h];
  }

  lemma BackingTop(c: Layout, T: seq<Huft>, dir: seq<Tab>, st: seq<nat>, u: seq<nat>, x: seq<nat>, k: nat, r: nat,
                   i: nat, i': nat, h: int, w: int)
    requires Backing(c, T, dir, st, u, x, k, r, i, i', h, w)
    ensures 0 <= h < |x| && 0 <= w < k && h == |st| - 1
  {
  }

  /** Backup over finished tables. */
  method Backup(ghost c: Layout, l: nat, k: nat, i': nat, h0: int, w0: int, x: seq<nat>, ghost T: seq<Huft>,
          ghost u: seq<nat>,
                ghost i: nat, ghost r: nat, ghost dir: seq<Tab>, ghost st0: seq<nat>, ghost lo: nat, ghost hn: nat)
    returns (h: int, w: int, ghost st: seq<nat>)
    requires c.Valid() && l == c.l && AtCode(c, k, r, i) && r < c.Codes(k) && AtCode(c, k, r + 1, i')
    requires Directory(c, dir, lo, hn) && Backing(c, T, dir, st0, u, x, k, r, i, i', h0, w0)
    ensures Backing(c, T, dir, st, u, x, k, r, i, i', h, w) && Low(i', w) == x[h]
    ensures (st == st0 && h == h0) || k > w + l
  {
    hide Backing, Directory, AtCode, Layout.Valid, Layout.Codes;
    h, w, st := h0, w0, st0;
    BackingTop(c, T, dir, st, u, x, k, r, i, i', h, w);
    while Low(i', w) != x[h]
      invariant Backing(c, T, dir, st, u, x, k, r, i, i', h, w) && 0 <= h < |x| && 0 <= w && h < |st|
      invariant (st == st0 && h == h0) || k > w + l
      decreases h
    {
      PopStep(c, T, dir, st, u, x, k, r, i, i', h, w, lo, hn);
      st := st[..h];
      h := h - 1;
      w := w - l;
      BackingTop(c, T, dir, st, u, x, k, r, i, i', h, w);
    }
  }

  lemma LinksPrefix(c: Layout, T: seq<Huft>, dir: seq<Tab>, st: seq<nat>, n: nat)
    requires Links(c, T, dir, st) && n <= |st|
    ensures Links(c, T, dir, st[..n])
  {
    forall j: nat | 1 <= j < n
      ensures LinkOn(c, T, dir, st[..n], j)
    {
      assert LinkOn(c, T, dir, st, j);
    }
  }

  /** The invariant survives storing the entry of one code. */
  lemma FillInv(c: Layout, T: seq<Huft>, U: seq<Huft>, dir: seq<Tab>, st: seq<nat>, u: seq<nat>, x: seq<nat>,
                h: int, w: int, i: nat, k: nat, r: nat, lo: nat, hn: nat, e: Huft)
    requires Inv(c, T, dir, st, u, x, h, w, i, k, r, lo, hn) && r < c.Codes(k) && h >= 0 && k <= w + c.l
    requires Filled(T, U, dir[st[h]], k - w, Shr(i, w), e) && c.Leaf(e, k, r, w) && e.bits == k - w
    ensures Links(c, U, dir, st) && Slots(c, U, dir, c.Start(k, r + 1)) && Kept(c, U, dir, hn)
  {
    hide Rev, Shl, Low, Shr, NextCode, Count, SlotDone, Fits, Sized;
    LinksKept(c, T, U, dir, lo, hn, st, u, x, i);
    assert OnStack(c, dir, st, u, x, i, h);
    TopHolds(c, dir, lo, hn, st[h], k, r, i);
    FillStep(c, T, U, dir, lo, hn, st, u, x, i, k, r, e);
    FillKept(c, T, U, dir, lo, hn, st[h], k, r, i);
  }

  lemma ClosedLater(c: Layout, dir: seq<Tab>, st: seq<nat>, k: nat, r: nat)
    requires c.Valid() && 1 <= k <= c.g && Closed(c, dir, st, c.Start(k, r))
    ensures Closed(c, dir, st, c.Start(k, r + 1))
  {
    StartAdd(c, k, r, 1);
  }

  /** Store the entry of the r-th code of length k in every slot of the
      innermost table that begins with it. */
  method StoreCode(ghost c: Layout, hp: array<Huft>, k: nat, i: nat, ghost h: int, w: nat, q: nat, z: nat,
          ghost x: seq<nat>, e: Huft,
                   ghost u: seq<nat>, ghost r: nat, ghost dir: seq<Tab>, ghost st: seq<nat>, ghost lo: nat,
                     ghost hn: nat)
    requires Inv(c, hp[..], dir, st, u, x, h, w, i, k, r, lo, hn) && r < c.Codes(k)
    requires h >= 0 && k <= w + c.l && q == dir[st[h]].base && z == Pow2(dir[st[h]].jb)
    requires c.Leaf(e, k, r, w) && e.bits == k - w
    modifies hp
    ensures forall j: nat :: j < hp.Length && (j < lo || j >= hn) ==> hp[j] == old(hp[j])
    ensures Links(c, hp[..], dir, st) && Slots(c, hp[..], dir, c.Start(k, r + 1)) && Kept(c, hp[..], dir, hn)
  {
    hide Rev, Low, Shl, NextCode, Count, Fits, SlotDone;
    assert TabOK(c, dir[st[h]], lo, hn);
    ghost var T := hp[..];
    Pow2Mono(k, w + (k - w));
    ShrBound(i, w, k - w);
    FillEntries(hp, q, z, Shr(i, w), k - w, e);
    FillInv(c, T, hp[..], dir, st, u, x, h, w, i, k, r, lo, hn, e);
  }

  /** Store one code, step to the next code and close the tables it leaves. */
  method FillCode(ghost c: Layout, hp: array<Huft>, l: nat, k: nat, i0: nat, h0: int, w0: int, q: nat, z: nat,
          x: seq<nat>, e: Huft,
                  ghost u: seq<nat>, ghost r: nat, ghost dir: seq<Tab>, ghost st0: seq<nat>, ghost lo: nat,
                    ghost hn: nat)
    returns (i: nat, h: int, w: int, ghost st: seq<nat>)
    requires Inv(c, hp[..], dir, st0, u, x, h0, w0, i0, k, r, lo, hn) && r < c.Codes(k) && l == c.l
    requires h0 >= 0 && k <= w0 + l && q == dir[st0[h0]].base && z == Pow2(dir[st0[h0]].jb)
    requires c.Leaf(e, k, r, w0) && e.bits == k - w0
    modifies hp
    ensures forall j: nat :: j < hp.Length && (j < lo || j >= hn) ==> hp[j] == old(hp[j])
    ensures Inv(c, hp[..], dir, st, u, x, h, w, i, k, r + 1, lo, hn)
    ensures (st == st0 && h == h0) || k > w + l
  {
    hide Low, Shl, Count, SlotDone, Fits, Slots, Rev, NextCode, Kept, OnePerRegion, Tiled, Links, Closed, Directory,
      Stack;
    StoreCode(c, hp, k, i0, h0, w0, q, z, x, e, u, r, dir, st0, lo, hn);
    NextCodeAt(c, k, r, i0);
    i := BackIncrement(i0, k);
    ClosedLater(c, dir, st0, k, r);
    Pow2Mono(k, w0 + l);
    h, w, st := Backup(c, l, k, i, h0, w0, x, hp[..], u, i0, r, dir, st0, lo, hn);
    AfterBackup(c, hp[..], dir, st, u, x, k, r, i0, i, h, w, lo, hn);
  }

  lemma AfterBackup(c: Layout, T: seq<Huft>, dir: seq<Tab>, st: seq<nat>, u: seq<nat>, x: seq<nat>, k: nat, r: nat,
          i: nat, i': nat,
                    h: int, w: int, lo: nat, hn: nat)
    requires Backing(c, T, dir, st, u, x, k, r, i, i', h, w) && Low(i', w) == x[h]
    requires AtCode(c, k, r + 1, i') && hn <= |T| && Directory(c, dir, lo, hn)
    requires Slots(c, T, dir, c.Start(k, r + 1)) && Tiled(dir, lo, hn) && OnePerRegion(dir) && Kept(c, T, dir, hn)
    requires dir[0].base == lo && dir[0].w == 0 && dir[0].pre == 0
    ensures Inv(c, T, dir, st, u, x, h, w, i', k, r + 1, lo, hn)
  {
    hide Rev, Shl, NextCode, Count, SlotDone, Fits, Slots, Tiled, OnePerRegion, Kept, Links, Closed;
    assert OnStack(c, dir, st, u, x, i, h);
    assert TabOK(c, dir[st[h]], lo, hn);
    StackMoves(c, dir, st, u, x, i, i');
  }

  lemma NextCodeAt(c: Layout, k: nat, r: nat, i: nat)
    requires c.Valid() && AtCode(c, k, r, i) && r < c.Codes(k)
    ensures Rev(k, i) == NextCode(c.lens, k) + r
  {
    CodeRegion(c, k, r, i);
  }

  /** q and z describe the innermost table, unless one is about to be opened. */
  ghost predicate Current(c: Layout, s: Locals, t: Tables, k: nat) {
    k > s.w + c.l
      || (0 <= s.h < |t.st| && t.st[s.h] < |t.dir| && s.q == t.dir[t.st[s.h]].base && s.z == Pow2(t.dir[t.st[s.h]].jb))
  }

  /** All locals of the main loop, about to place the r-th code of length k. */
  ghost predicate Loop(c: Layout, T: seq<Huft>, v: seq<nat>, s: Locals, t: Tables, k: nat, r: nat, lo: nat) {
    && Placing(c, T, s, t, k, r, lo) && (c.g <= c.l ==> s.hn <= lo + Pow2(c.l))
    && Current(c, s, t, k) && Values(c, v, k, r, s.p, s.rbase)
  }

  /** Place the r-th code of length k, opening the tables it needs. */
  method PlaceCode(ghost c: Layout, f: Fixed, hp: array<Huft>, v: array<nat>, k: nat, a: nat, s0: Locals, ghost r: nat,
          ghost t0: Tables,
                   ghost lo: nat)
    returns (ok: bool, s: Locals, ghost t: Tables)
    requires Loop(c, hp[..], v[..], s0, t0, k, r, lo) && Describes(f, c)
    requires r < c.Codes(k) && a + 1 == c.Codes(k) - r && hp.Length >= MANY
    modifies hp
    ensures forall j: nat :: j < hp.Length && (j < lo || j >= s.hn) ==> hp[j] == old(hp[j])
    ensures s0.hn <= s.hn
    ensures if ok then Loop(c, hp[..], v[..], s, t, k, r + 1, lo) && |t.dir| > 0 else NoRoom(c, lo, s.hn)
    ensures f.g <= f.l && !ok ==> lo + Pow2(f.l) > MANY
  {
    hide NoRoom, Inv, NextCode, Count, Fits, Sized;
    ok, s, t := OpenTables(c, f, hp, k, a, s0, r, t0, lo);
    if ok {
      CodeWidth(c, hp[..], s, t, k, r, lo);
      var e, p, rbase := MakeEntry(c, f.m, v, f.n, s.p, k, s.w, s.rbase, r);
      var i, h, w;
      ghost var st;
      i, h, w, st := FillCode(c, hp, f.l, k, s.i, s.h, s.w, s.q, s.z, s.x, e, s.u, r, t.dir, t.st, lo, s.hn);
      s, t := s.(i := i, h := h, w := w, p := p, rbase := rbase), Tables(t.dir, st);
    }
  }

  lemma CodeWidth(c: Layout, T: seq<Huft>, s: Locals, t: Tables, k: nat, r: nat, lo: nat)
    requires Placing(c, T, s, t, k, r, lo) && s.h >= 0
    ensures 0 <= s.w < k <= c.g && c.Valid() && 1 <= k && |t.dir| > 0
  {
  }

  /** Make tables up to required level. */
  method OpenTables(ghost c: Layout, f: Fixed, hp: array<Huft>, k: nat, a: nat, s0: Locals, ghost r: nat,
          ghost t0: Tables, ghost lo: nat)
    returns (ok: bool, s: Locals, ghost t: Tables)
    requires Placing(c, hp[..], s0, t0, k, r, lo) && Current(c, s0, t0, k) && Describes(f, c)
    requires r < c.Codes(k) && a + 1 == c.Codes(k) - r && hp.Length >= MANY
    modifies hp
    ensures forall j: nat :: j < hp.Length && (j < lo || j >= s.hn) ==> hp[j] == old(hp[j])
    ensures s0.hn <= s.hn && s.i == s0.i && s.p == s0.p
    ensures if ok then Placing(c, hp[..], s, t, k, r, lo) && k <= s.w + f.l && s.h >= 0 else NoRoom(c, lo, s.hn)
    ensures ok ==> Current(c, s, t, k)
    ensures f.g <= f.l ==>
      s.rbase == s0.rbase && (!ok ==> lo + Pow2(f.l) > MANY) && (s.hn == s0.hn || s.hn <= lo + Pow2(f.l))
  {
    hide Placing, NoRoom;
    ok, s, t := true, s0, t0;
    while ok && k > s.w + f.l
      invariant if ok then Placing(c, hp[..], s, t, k, r, lo) && Current(c, s, t, k) else NoRoom(c, lo, s.hn)
      invariant forall j: nat :: j < hp.Length && (j < lo || j >= s.hn) ==> hp[j] == old(hp[j])
      invariant s0.hn <= s.hn && s.i == s0.i && s.p == s0.p
      invariant f.g <= f.l ==>
        s.rbase == s0.rbase && (!ok ==> lo + Pow2(f.l) > MANY) && (s.hn == s0.hn || s.hn <= lo + Pow2(f.l))
      decreases k - s.w, ok
    {
      ghost var st := t.st;
      OpenSize(c, hp[..], s, t, k, r, lo);
      ok, s, t := OpenTable(c, f, hp, k, a, s, r, t, lo);
      if ok { assert t.st[|st|] == |t.dir| - 1; }
    }
  }

  // ----- the whole build -----

  /** With the codes of length k all placed, the next length starts in the same
      place. */
  lemma NextLength(c: Layout, T: seq<Huft>, dir: seq<Tab>, st: seq<nat>, u: seq<nat>, x: seq<nat>,
                   h: int, w: int, i: nat, k: nat, lo: nat, hn: nat)
    requires Inv(c, T, dir, st, u, x, h, w, i, k, c.Codes(k), lo, hn) && k < c.g
    ensures Inv(c, T, dir, st, u, x, h, w, i, k + 1, 0, lo, hn)
  {
    StartNext(c, k);
    Room(c, k);
    Pow2Mono(k, k + 1);
    RevSplit(k, 1, i);
    LowSmall(i, k);
    RevOfZero(1);
    assert Pow2(k + 1) == 2 * Pow2(k);
    assert Shl(Rev(k, i), 1) == 2 * Rev(k, i);
  }

  lemma ValuesNext(c: Layout, v: seq<nat>, k: nat, p: nat, rbase: nat)
    requires k < c.g && Values(c, v, k, c.Codes(k), p, rbase)
    ensures Values(c, v, k + 1, 0, p, rbase)
  {
  }

  lemma StartInv(c: Layout, T: seq<Huft>, u: seq<nat>, x: seq<nat>, k: nat, lo: nat)
    requires c.Valid() && 1 <= k <= c.g && lo <= |T| && |u| == 15 && |x| == 16 && NextCode(c.lens, k) == 0 && c.was == T
    ensures Inv(c, T, [], [], u, x, -1, 0 - c.l, 0, k, 0, lo, lo)
  {
    RevOfZero(k);
  }

  lemma LoopValid(c: Layout, T: seq<Huft>, v: seq<nat>, s: Locals, t: Tables, k: nat, r: nat, lo: nat)
    requires Loop(c, T, v, s, t, k, r, lo)
    ensures c.Valid() && 1 <= k <= c.g && r <= c.Codes(k)
  {
  }

  /** Place all codes of length k. */
  method PlaceLength(ghost c: Layout, f: Fixed, hp: array<Huft>, v: array<nat>, k: nat, s0: Locals, ghost t0: Tables,
          ghost lo: nat)
    returns (ok: bool, s: Locals, ghost t: Tables)
    requires Loop(c, hp[..], v[..], s0, t0, k, 0, lo) && Describes(f, c) && hp.Length >= MANY
    requires 1 <= k <= f.g && k < |f.cc| && f.cc[k] == c.Codes(k)
    modifies hp
    ensures forall j: nat :: j < hp.Length && (j < lo || j >= s.hn) ==> hp[j] == old(hp[j])
    ensures s0.hn <= s.hn
    ensures if ok then Loop(c, hp[..], v[..], s, t, k, c.Codes(k), lo) else NoRoom(c, lo, s.hn)
    ensures ok && c.Codes(k) > 0 ==> |t.dir| > 0
    ensures f.g <= f.l && !ok ==> lo + Pow2(f.l) > MANY
  {
    hide Loop, NoRoom, Describes, Layout.Codes, Layout.Valid;
    LoopValid(c, hp[..], v[..], s0, t0, k, 0, lo);
    ok, s, t := true, s0, t0;
    var a := f.cc[k];
    ghost var n, r := a, 0;
    while ok && a > 0
      invariant n == r + a && s0.hn <= s.hn
      invariant if ok then Loop(c, hp[..], v[..], s, t, k, r, lo) else NoRoom(c, lo, s.hn)
      invariant ok && r > 0 ==> |t.dir| > 0
      invariant forall j: nat :: j < hp.Length && (j < lo || j >= s.hn) ==> hp[j] == old(hp[j])
      invariant f.g <= f.l && !ok ==> lo + Pow2(f.l) > MANY
    {
      a := a - 1;
      ok, s, t := PlaceCode(c, f, hp, v, k, a, s, r, t, lo);
      r := r + 1;
    }
  }

  lemma LoopNext(c: Layout, T: seq<Huft>, v: seq<nat>, s: Locals, t: Tables, k: nat, lo: nat)
    requires Loop(c, T, v, s, t, k, c.Codes(k), lo) && k < c.g
    ensures Loop(c, T, v, s, t, k + 1, 0, lo)
  {
    hide Inv;
    assert Inv(c, T, t.dir, t.st, s.u, s.x, s.h, s.w, s.i, k, c.Codes(k), lo, s.hn);
    NextLength(c, T, t.dir, t.st, s.u, s.x, s.h, s.w, s.i, k, lo, s.hn);
    ValuesNext(c, v, k, s.p, s.rbase);
  }

  lemma LoopStart(c: Layout, T: seq<Huft>, v: seq<nat>, s: Locals, k: nat, lo: nat)
    requires c.Valid() && 1 <= k <= c.g && lo <= |T| && Sorted(c.lens, c.g, v) && c.was == T
    requires forall L :: 1 <= L < k ==> Count(c.lens, L) == 0
    requires |s.u| == 15 && |s.x| == 16 && s == Locals(0, lo, -1, 0 - c.l, 0, 0, s.x, s.u, 0, 0)
    ensures Loop(c, T, v, s, Tables([], []), k, 0, lo)
  {
    NextCodeZero(c.lens, k);
    OffZero(c.lens, k);
    StartInv(c, T, s.u, s.x, k, lo);
  }

  lemma LoopEnd(c: Layout, T: seq<Huft>, v: seq<nat>, s: Locals, t: Tables, lo: nat)
    requires Loop(c, T, v, s, t, c.g, c.Codes(c.g), lo) && |t.dir| > 0
    ensures Built(c, T, t.dir, lo, s.hn)
    ensures c.g <= c.l ==> s.hn <= lo + Pow2(c.l)
  {
    hide Directory, Slots, Tiled, OnePerRegion, Kept, Stack, Links, Closed, NextCode, Count, Values, Current, AtCode;
  }

  /** Generate the Huffman codes and for each, make the table entries. */
  method GenerateTables(ghost c: Layout, f: Fixed, hp: array<Huft>, v: array<nat>, k0: nat, hn0: nat, x0: seq<nat>)
    returns (ok: bool, hn: nat, ghost dir: seq<Tab>)
    requires c.Valid() && Describes(f, c)
    requires 1 <= k0 <= f.g && (forall L :: 1 <= L < k0 ==> Count(c.lens, L) == 0) && |x0| == BMAX + 1
    requires Sorted(c.lens, f.g, v[..])
    requires hn0 <= hp.Length && MANY <= hp.Length && c.was == hp[..]
    modifies hp
    ensures forall j: nat :: j < hp.Length && (j < hn0 || j >= hn) ==> hp[j] == old(hp[j])
    ensures hn0 <= hn
    ensures if ok then Built(c, hp[..], dir, hn0, hn) else NoRoom(c, hn0, hn)
    ensures f.g <= f.l ==> if ok then hn <= hn0 + Pow2(f.l) else hn0 + Pow2(f.l) > MANY
  {
    hide Loop, NoRoom, Built;
    var k := k0;
    var s := Locals(0, hn0, -1, 0 - f.l, 0, 0, x0[0 := 0], seq(15, _ => 0), 0, 0);
    ghost var t := Tables([], []);
    ok := true;
    LoopStart(c, hp[..], v[..], s, k0, hn0);
    ok, s, t := PlaceLength(c, f, hp, v, k, s, t, hn0);
    while ok && k < f.g
      invariant 1 <= k <= f.g && hn0 <= s.hn
      invariant if ok then Loop(c, hp[..], v[..], s, t, k, c.Codes(k), hn0) else NoRoom(c, hn0, s.hn)
      invariant ok && c.Codes(k) > 0 ==> |t.dir| > 0
      invariant forall j: nat :: j < hp.Length && (j < hn0 || j >= s.hn) ==> hp[j] == old(hp[j])
      invariant f.g <= f.l && !ok ==> hn0 + Pow2(f.l) > MANY
      decreases f.g - k, ok
    {
      LoopNext(c, hp[..], v[..], s, t, k, hn0);
      k := k + 1;
      ok, s, t := PlaceLength(c, f, hp, v, k, s, t, hn0);
    }
    hn, dir := s.hn, t.dir;
    if ok { LoopEnd(c, hp[..], v[..], s, t, hn0); }
  }

  lemma {:induction false} OffZero(b: seq<nat>, j: nat)
    requires forall L :: 1 <= L < j ==> Count(b, L) == 0
    ensures Off(b, j) == 0
  {
    if j > 1 { OffZero(b, j - 1); }
  }

  ghost predicate NoLonger(b: seq<nat>, m: nat) {
    forall s :: 0 <= s < |b| ==> b[s] <= m
  }

  /** What every caller relies on: a table of m bits holds all codes, or the
      code is complete and too small for a table level to be skipped. */
  ghost predicate Usable(b: seq<nat>, m: nat) {
    NoLonger(b, m) || (Complete(b) && |b| < Pow2(m + 1))
  }

  /** A single level: the entry found is that of the symbol whose code comes
      next; a pattern without one leads to an invalid entry, which, for a lone
      code of one bit, still carries that code's base. */
  ghost predicate Flat(T: seq<Huft>, t: nat, need: nat, b: seq<nat>, m: Meaning) {
    && m.Covers(|b|)
    && forall inp: seq<byte>, pos: nat :: FlatAt(T, t, need, b, m, inp, pos)
  }

  ghost predicate FlatAt(T: seq<Huft>, t: nat, need: nat, b: seq<nat>, m: Meaning, inp: seq<byte>, pos: nat)
    requires m.Covers(|b|)
  {
    && t + Peek(inp, pos, need) < |T|
    && var e, s := T[t + Peek(inp, pos, need)], Decode(b, inp, pos);
      if s >= 0 then e == m.Entry(s, b[s])
      else e.exop == INVALID && (NoLonger(b, 1) ==>
        Count(b, 1) > 0 && Nth(b, 1, Count(b, 1) - 1) < |b| && e.bits == 1
          && e.base == m.Entry(Nth(b, 1, Count(b, 1) - 1), 0).base)
  }

  lemma {:induction false} CodesTotal(c: Layout, L: nat)
    requires 1 <= L <= c.g + 1 && c.y == 0
    ensures c.CodesFrom(L, 0) + Off(c.lens, L) == Off(c.lens, c.g + 1)
    decreases c.g + 1 - L
  {
    if L <= c.g { CodesTotal(c, L + 1); }
  }

  /** The shortest code. */
  ghost predicate Shortest(b: seq<nat>, j: nat) {
    1 <= j && Count(b, j) > 0 && forall s :: 0 <= s < |b| ==> b[s] == 0 || j <= b[s]
  }

  /** The bits of a table: m, but no fewer than the shortest code and no more than the
      longest. */
  ghost predicate WidthFor(c: Layout, m: nat, j: nat) {
    var l := if m < j then j else m;
    Shortest(c.lens, j) && c.l == if l > c.g then c.g else l
  }

  /** The layout of the code with lengths b, when tables of m bits are asked for. */
  ghost predicate LayoutFor(c: Layout, b: seq<nat>, ms: Meaning, m: nat, was: seq<Huft>) {
    c.Valid() && c.lens == b && c.m == ms && c.was == was && exists j: nat :: WidthFor(c, m, j)
  }

  lemma UsableNoGap(c: Layout, m: nat, j: nat)
    requires c.Valid() && Usable(c.lens, m) && WidthFor(c, m, j)
    requires c.y == 0 <==> Complete(c.lens)
    ensures !Gap(c)
  {
    UsableFew(c, m, j);
    FewCodesNoGap(c);
  }

  lemma UsableFew(c: Layout, m: nat, j: nat)
    requires c.Valid() && Usable(c.lens, m) && WidthFor(c, m, j)
    requires c.y == 0 <==> Complete(c.lens)
    ensures c.FewCodes()
  {
    if c.g > c.l {
      assert !NoLonger(c.lens, m) by {
        assert c.g > m && Count(c.lens, c.g) >= 1;
        CountZero(c.lens, c.g);
      }
      CodesTotal(c, 1);
      OffBound(c.lens, c.g + 1);
      Pow2Mono(m + 1, c.l + 1);
    }
  }

  /** The shortest code of a complete set is short. */
  lemma ShortestFits(b: seq<nat>, m: nat, j: nat)
    requires Lengths(b) && 1 <= j <= MAXBITS && Complete(b) && |b| < Pow2(m + 1)
    requires forall s :: 0 <= s < |b| ==> b[s] == 0 || j <= b[s]
    ensures j <= m
  {
    if j > m {
      KraftShort(b, j);
      Pow2Mono(m + 1, j);
      ShlCompare(|b|, j, MAXBITS - j);
      assert false;
    }
  }

  lemma RootBits(c: Layout, dir: seq<Tab>, lo: nat, hn: nat)
    requires c.Valid() && Small(c, dir) && Directory(c, dir, lo, hn) && |dir| > 0 && dir[0].w == 0 && dir[0].pre == 0
    ensures dir[0].jb == c.l
  {
    assert TabOK(c, dir[0], lo, hn);
    var r := Count(c.lens, c.g) - 1;
    Nested(c.g, 0, 0, 0);
    assert PatLo(c.g, 0, 0) == 0 by { ShlZero(c.g); }
    assert c.Start(c.g, r) < Pow2(c.g);
    assert PatHi(c.g, 0, 0) == Pow2(c.g);
  }

  lemma RootFlat(c: Layout, T: seq<Huft>, dir: seq<Tab>, lo: nat, hn: nat, inp: seq<byte>, pos: nat)
    requires c.Valid() && c.g <= c.l && Directory(c, dir, lo, hn) && hn <= |T| && Slots(c, T, dir, Pow2(c.g))
    requires |dir| > 0 && dir[0].w == 0 && dir[0].pre == 0 && Small(c, dir)
    ensures FlatAt(T, dir[0].base, dir[0].jb, c.lens, c.m, inp, pos)
  {
    hide NextCode, Count, Rev, PeekMsb, Shl, Fits, Directory, Decode, Nth, Slots, Sized;
    var tab := dir[0];
    var idx := LandsOn(c, T, dir, lo, hn, 0, inp, pos);
    var e := T[tab.base + idx];
    forall t': nat ensures !ChildAt(c, e, dir, 0, t', idx) { NoSecondLevel(c, dir, lo, hn, e, t', idx); }
    PeekMsbOfPat(inp, pos, e.bits, tab.jb);
    FlatLeaf(c, e, inp, pos);
  }

  lemma NoSecondLevel(c: Layout, dir: seq<Tab>, lo: nat, hn: nat, e: Huft, t': nat, idx: nat)
    requires c.g <= c.l && Directory(c, dir, lo, hn) && |dir| > 0
    ensures !ChildAt(c, e, dir, 0, t', idx)
  {
    if t' < |dir| { assert TabOK(c, dir[t'], lo, hn); }
  }

  lemma FlatLeaf(c: Layout, e: Huft, inp: seq<byte>, pos: nat)
    requires c.Valid() && c.g <= c.l && 1 <= e.bits <= c.g
    requires var L, code := e.bits, PeekMsb(inp, pos, e.bits);
      NextCode(c.lens, L) <= code < NextCode(c.lens, L) + c.Codes(L) && c.Leaf(e, L, code - NextCode(c.lens, L), 0)
    ensures var s := Decode(c.lens, inp, pos);
      if s >= 0 then e == c.m.Entry(s, c.lens[s])
      else e.exop == INVALID && e.bits == c.g && e.base == c.m.Entry(c.LastSymbol(), 0).base
  {
    var L, r := e.bits, PeekMsb(inp, pos, e.bits) - NextCode(c.lens, e.bits);
    if r < Count(c.lens, L) {
      var s := Nth(c.lens, L, r);
      assert Matches(c.lens, s, inp, pos);
      DecodeUnique(c.lens, s, inp, pos);
    } else {
      var s := Decode(c.lens, inp, pos);
      if s >= 0 { DummyMatchesNothing(c, inp, pos, s); }
    }
  }

  /** What a finished build promises about the tables at lo if no slot is unset. */
  lemma BuildResult(c: Layout, T: seq<Huft>, dir: seq<Tab>, lo: nat, hn: nat)
    requires Built(c, T, dir, lo, hn) && !Gap(c)
    ensures TableOK(T, hn, c.l, lo, c.l, 0)
    ensures Decodes(T, lo, c.l, c.lens, c.m)
    ensures c.g <= c.l ==> Flat(T, lo, c.l, c.lens, c.m)
  {
    hide NextCode, Count, Slots, Directory, Gap, Tiled, Kept, OnePerRegion;
    AllWritten(c, T, dir, lo, hn);
    RootBits(c, dir, lo, hn);
    FinishedTableOK(c, T, dir, lo, hn, 0);
    forall inp: seq<byte>, pos: nat
      ensures Walk(T, lo, c.l, inp, pos) == CodeHit(c.lens, c.m, inp, pos)
    {
      WalkTable(c, T, dir, lo, hn, 0, inp, pos);
    }
    if c.g <= c.l {
      forall inp: seq<byte>, pos: nat
        ensures FlatAt(T, lo, c.l, c.lens, c.m, inp, pos)
      {
        RootFlat(c, T, dir, lo, hn, inp, pos);
      }
    }
  }

  /** Given a list of code lengths and a maximum table size, make a set of tables to
      decode that set of codes.  The tables start at hp[hn]; the result says where
      they start (m' == 0 if there is no code at all), how many bits index the first
      one, and how much of hp is now in use.  Ghost results: that the space for trees
      ran out, the layout of the code, and all tables. */
  method HuftBuild(b: seq<nat>, ms: Meaning, m: nat, hp: array<Huft>, hn: nat, v: array<nat>)
    returns (rc: Status, t: nat, m': nat, hn': nat, ghost many: bool, ghost c: Layout, ghost dir: seq<Tab>)
    requires 0 < |b| <= 288 && Lengths(b) && ms.Covers(|b|)
    requires MANY <= hp.Length && hn <= hp.Length && |b| <= v.Length
    modifies hp, v
    ensures forall j: nat :: j < hp.Length && (j < hn || j >= hn') ==> hp[j] == old(hp[j])
    ensures hn <= hn' && t == hn
    ensures AllZero(b) ==> rc == Ok && m' == 0 && hn' == hn && !many
    // the status
    ensures many ==> rc == DataError && LayoutFor(c, b, ms, m, old(hp[..])) && NoRoom(c, hn, hn')
    ensures !many ==> (rc == DataError <==> Kraft(b) > Pow2(MAXBITS))
    ensures !many ==> (rc == BufError <==> !AllZero(b) && Kraft(b) < Pow2(MAXBITS) && !NoLonger(b, 1))
    // the tables
    ensures rc != DataError && !AllZero(b) ==>
      hn' <= hp.Length && 1 <= m' && LayoutFor(c, b, ms, m, old(hp[..])) && m' == c.l && Built(c, hp[..], dir, hn, hn')
    ensures rc != DataError && !AllZero(b) ==>
      && ((forall p: nat :: hn <= p < hn' ==> Written(c, hp[..], dir, p)) <==> !Gap(c))
      && (forall p: nat :: hn <= p < hn' && !Written(c, hp[..], dir, p) ==> hp[p] == old(hp[p]))
    ensures rc != DataError && !AllZero(b) && !Gap(c) ==>
      && TableOK(hp[..], hn', m', t, m', 0) && Decodes(hp[..], t, m', b, ms) && (NoLonger(b, m') ==>
        Flat(hp[..], t, m', b, ms))
    ensures rc != DataError && !AllZero(b) && Usable(b, m) ==>
      m' <= m && !Gap(c) && (NoLonger(b, m) ==> NoLonger(b, m'))
    ensures NoLonger(b, m) && hn + Pow2(m) <= MANY ==> !many && hn' <= hn + Pow2(m)
  {
    hide TableOK, Decodes, Flat, Written, Gap, Built, NoRoom, Usable, LayoutFor;
    t, m', hn', many, dir := hn, 0, hn, false, [];
    var cc := CountLengths(b);
    c := Layout(b, ms, 0, 0, 0, hp[..]);
    CountAll(b, 0);
    if cc[0] == |b| {
      KraftOfZero(b);
      rc := Ok;
    } else {
      var j, g := LengthBounds(b, cc);
      var l := if m < j then j else m;
      l := if l > g then g else l;
      m' := l;
      var y := Missing(b, cc, j, g);
      if y < 0 {
        rc := DataError;
        if NoLonger(b, m) { Pow2Mono(0, m); }
      } else {
        UpToOne(b, g);
        KraftSign(b, g);
        rc, hn', many, c, dir := FillTables(b, ms, m, hp, hn, v, cc, j, g, l, y);
      }
    }
  }

  /** The second half of huft_build, for a code that is not over-subscribed. */
  method FillTables(b: seq<nat>, ms: Meaning, m: nat, hp: array<Huft>, hn: nat, v: array<nat>, c0: seq<nat>, j: nat,
          g: nat, l: nat, y: nat)
    returns (rc: Status, hn': nat, ghost many: bool, ghost c: Layout, ghost dir: seq<Tab>)
    requires 0 < |b| <= 288 && Lengths(b) && ms.Covers(|b|)
    requires MANY <= hp.Length && hn <= hp.Length && |b| <= v.Length
    requires |c0| == BMAX + 1 && forall L :: 0 <= L <= BMAX ==> c0[L] == Count(b, L)
    requires 1 <= j <= g <= BMAX && Count(b, j) > 0 && Count(b, g) > 0
    requires forall s :: 0 <= s < |b| ==> b[s] == 0 || j <= b[s] <= g
    requires l == (var n := if m < j then j else m; if n > g then g else n)
    requires NextCode(b, g) + Count(b, g) + y == Pow2(g) && (y == 0 <==> Complete(b))
    modifies hp, v
    ensures forall p: nat :: p < hp.Length && (p < hn || p >= hn') ==> hp[p] == old(hp[p])
    ensures hn <= hn' && LayoutFor(c, b, ms, m, old(hp[..])) && c.l == l
    ensures if many then rc == DataError && NoRoom(c, hn, hn') else rc == if y != 0 && g != 1 then BufError else Ok
    ensures !many ==> hn' <= hp.Length && Built(c, hp[..], dir, hn, hn')
    ensures !many ==>
      && ((forall p: nat :: hn <= p < hn' ==> Written(c, hp[..], dir, p)) <==> !Gap(c))
      && (forall p: nat :: hn <= p < hn' && !Written(c, hp[..], dir, p) ==> hp[p] == old(hp[p]))
    ensures !many && !Gap(c) ==>
      && TableOK(hp[..], hn', l, hn, l, 0) && Decodes(hp[..], hn, l, b, ms) && (NoLonger(b, l) ==>
        Flat(hp[..], hn, l, b, ms))
    ensures !many && Usable(b, m) ==> l <= m && !Gap(c) && (NoLonger(b, m) ==> NoLonger(b, l))
    ensures NoLonger(b, m) && hn + Pow2(m) <= MANY ==> !many && hn' <= hn + Pow2(m)
  {
    hide TableOK, Decodes, Flat, Written, Gap, Built, NoRoom, Usable, Sorted, Kraft, NextCode, Count, Off;
    c := Layout(b, ms, g, y, l, hp[..]);
    var x := Offsets(b, c0, g);
    var cc := c0[g := c0[g] + y];
    x := SortValues(b, x, g, v);
    forall L | 1 <= L < j ensures Count(b, L) == 0 { CountZero(b, L); }
    assert WidthFor(c, m, j);
    var ok;
    ok, hn', dir := GenerateTables(c, Fixed(cc, x[g], g, l, ms), hp, v, j, hn, x);
    rc := if !ok then DataError else if y != 0 && g != 1 then BufError else Ok;
    many := !ok;
    if ok {
      BuiltSize(c, hp[..], dir, hn, hn');
      BuildEnds(c, hp[..], dir, m, j, hn, hn');
    }
    if NoLonger(b, m) {
      CountZero(b, g);
      Pow2Mono(l, m);
    }
  }

  lemma BuiltSize(c: Layout, T: seq<Huft>, dir: seq<Tab>, lo: nat, hn: nat)
    requires Built(c, T, dir, lo, hn)
    ensures hn <= |T| == |c.was|
  {
  }

  lemma BuildEnds(c: Layout, T: seq<Huft>, dir: seq<Tab>, m: nat, j: nat, lo: nat, hn: nat)
    requires Built(c, T, dir, lo, hn) && WidthFor(c, m, j) && (c.y == 0 <==> Complete(c.lens))
    ensures (forall p: nat :: lo <= p < hn ==> Written(c, T, dir, p)) <==> !Gap(c)
    ensures forall p: nat :: lo <= p < hn && !Written(c, T, dir, p) ==> p < |c.was| && T[p] == c.was[p]
    ensures !Gap(c) ==>
      && TableOK(T, hn, c.l, lo, c.l, 0) && Decodes(T, lo, c.l, c.lens, c.m)
      && (NoLonger(c.lens, c.l) ==> Flat(T, lo, c.l, c.lens, c.m))
    ensures Usable(c.lens, m) ==> !Gap(c) && c.l <= m && (NoLonger(c.lens, m) ==> NoLonger(c.lens, c.l))
  {
    hide Gap, Written, Directory, Slots, Tiled, Kept, OnePerRegion, Flat, Decodes, TableOK;
    AllWritten(c, T, dir, lo, hn);
    if !Gap(c) {
      BuildResult(c, T, dir, lo, hn);
      if NoLonger(c.lens, c.l) { CountZero(c.lens, c.g); }
    }
    if Usable(c.lens, m) {
      UsableNoGap(c, m, j);
      UsableBits(c.lens, m, j, c.g);
    }
  }

  lemma UsableBits(b: seq<nat>, m: nat, j: nat, g: nat)
    requires Lengths(b) && Usable(b, m) && 1 <= j <= g <= MAXBITS && Count(b, g) > 0
    requires forall s :: 0 <= s < |b| ==> b[s] == 0 || j <= b[s] <= g
    ensures j <= m || g <= m
    ensures NoLonger(b, m) ==> g <= m
  {
    CountZero(b, g);
    if !NoLonger(b, m) { ShortestFits(b, m, j); }
  }

  lemma {:induction false} CountAll(b: seq<nat>, L: nat)
    ensures Count(b, L) == |b| <==> forall s :: 0 <= s < |b| ==> b[s] == L
  {
    if |b| > 0 {
      var p := b[..|b| - 1];
      CountAll(p, L);
      CountBound(p, L);
      if forall s :: 0 <= s < |p| ==> p[s] == L {
        assert forall s :: 0 <= s < |b| ==> s == |p| || b[s] == p[s];
      } else {
        var s :| 0 <= s < |p| && p[s] != L;
        assert b[s] != L;
      }
    }
  }

  lemma {:induction false} KraftOfZero(b: seq<nat>)
    requires AllZero(b)
    ensures Kraft(b) == 0
  {
    if |b| > 0 { KraftOfZero(b[..|b| - 1]); }
  }

  /** A code of more than one bit is not a code of one bit. */
  lemma UpToOne(b: seq<nat>, g: nat)
    requires 1 <= g && Count(b, g) > 0 && NoLonger(b, g)
    ensures g == 1 <==> NoLonger(b, 1)
  {
    CountZero(b, g);
  }
}
