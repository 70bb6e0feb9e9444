/** When huft_build leaves entries of its tables unset. */
module TableGaps {
  import opened Bits
  import opened Canonical
  import opened HuffTables
  import opened CodeLayout
  import opened Placement

  /** A code begins where the patterns with its first w bits begin, and is more than a
      whole level longer than that: its bits after the first w are zero, and there
      are more than l of them. */
  ghost predicate GapAt(c: Layout, w: nat, L: nat, r: nat, x: nat) {
    IsLevel(c.l, w) && IsCode(c, L, r) && L > w + c.l && NextCode(c.lens, L) + r == Shl(x, L - w)
  }

  ghost predicate Gap(c: Layout) {
    exists w: nat, L: nat, r: nat, x: nat :: GapAt(c, w, L, r, x)
  }

  /** The entry at p is the one that the patterns of its slot call for. */
  ghost predicate Written(c: Layout, T: seq<Huft>, dir: seq<Tab>, p: nat)
    requires c.Valid()
  {
    exists t: nat, idx: nat :: WrittenAs(c, T, dir, p, t, idx)
  }

  ghost predicate WrittenAs(c: Layout, T: seq<Huft>, dir: seq<Tab>, p: nat, t: nat, idx: nat)
    requires c.Valid()
  {
    t < |dir| && idx < Pow2(Wide(c, dir[t])) && p == dir[t].base + idx && p < |T| && SlotOK(c, T, dir, t, idx)
  }

  // ----- tables that are larger than a level -----

  /** A table larger than a level is one for a gap. */
  lemma LargeIsGap(c: Layout, dir: seq<Tab>, lo: nat, hi: nat, t: nat)
    requires c.Valid() && Directory(c, dir, lo, hi) && t < |dir| && dir[t].jb > c.l
    ensures Gap(c)
  {
    hide Rev, Shl, NextCode, Count, Fits;
    var w, pre := dir[t].w, dir[t].pre;
    assert TabOK(c, dir[t], lo, hi);
    var L: nat, r: nat :| IsCode(c, L, r) && c.Start(L, r) == PatLo(c.g, w, pre);
    PatWidth(c.g, w, pre);
    ShlPositive(c.g - w);
    ShlShl(Rev(w, pre), L - w, c.g - L);
    ShlInjective(NextCode(c.lens, L) + r, Shl(Rev(w, pre), L - w), c.g - L);
    assert GapAt(c, w, L, r, Rev(w, pre));
  }

  /** Some bits read the given number backwards. */
  lemma {:induction false} RevInverse(n: nat, y: nat) returns (v: nat)
    requires y < Pow2(n)
    ensures v < Pow2(n) && Rev(n, v) == y
    decreases n
  {
    if n == 0 {
      v := 0;
    } else if y < Pow2(n - 1) {
      v := RevInverse(n - 1, y);
      v := 2 * v;
      ShlZero(n - 1);
    } else {
      v := RevInverse(n - 1, y - Pow2(n - 1));
      v := 2 * v + 1;
    }
  }

  /** The slot that the bits v lead to in a table they have led to. */
  lemma SlotOfBits(c: Layout, tab: Tab, v: nat) returns (idx: nat)
    requires tab.pre == Low(v, tab.w) && tab.jb <= c.l
    ensures idx < Pow2(tab.jb) && tab.Pat(idx) == Low(v, tab.w + tab.jb)
  {
    idx := Low(Shr(v, tab.w), tab.jb);
    LowBound(Shr(v, tab.w), tab.jb);
    LowSplit(v, tab.w, tab.jb);
  }

  /** No shorter code is the beginning of another one. */
  lemma NoShorter(c: Layout, v: nat, M: nat, L: nat, r: nat)
    requires c.Valid() && IsCode(c, L, r) && Rev(L, v) == NextCode(c.lens, L) + r && 1 <= M < L
    ensures !(NextCode(c.lens, M) <= Rev(M, v) < NextCode(c.lens, M) + c.Codes(M))
  {
    hide Rev, Shl, NextCode, Count;
    Nested(c.g, M, L, v);
    assert PatLo(c.g, L, v) == c.Start(L, r);
    StartMono(c, M, L);
    StartAdd(c, L, 0, r);
    ShlMono(Rev(M, v) + 1, NextCode(c.lens, M) + c.Codes(M), c.g - M);
  }

  /** The next table on the way to a code that is more than a level longer. */
  lemma TableBelow(c: Layout, T: seq<Huft>, dir: seq<Tab>, lo: nat, hi: nat, v: nat, L: nat, r: nat, t: nat)
    returns (t': nat)
    requires Built(c, T, dir, lo, hi) && t < |dir| && dir[t].jb <= c.l && dir[t].pre == Low(v, dir[t].w)
    requires IsCode(c, L, r) && Rev(L, v) == NextCode(c.lens, L) + r && dir[t].w + c.l < L
    ensures t' < |dir| && dir[t'].w == dir[t].w + c.l && dir[t'].pre == Low(v, dir[t'].w)
  {
    hide Rev, NextCode, Count, Fits, Sized, Layout.Leaf, Slots, Low, Shl;
    var tab := dir[t];
    assert TabOK(c, tab, lo, hi);
    var idx := SlotOfBits(c, tab, v);
    AllDone(c, T, dir, lo, hi, t, idx);
    var e := T[tab.base + idx];
    if LeafAt(c, e, tab, tab.Pat(idx)) {
      RevLow(tab.w + e.bits, tab.w + tab.jb, v);
      NoShorter(c, v, tab.w + e.bits, L, r);
    } else {
      t' :| ChildAt(c, e, dir, t, t', idx);
    }
  }

  /** If no table is larger than a level, there is one at every level above a code. */
  lemma {:induction false} TableAbove(c: Layout, T: seq<Huft>, dir: seq<Tab>, lo: nat, hi: nat, v: nat, L: nat, r: nat,
          w: nat) returns (t: nat)
    requires Built(c, T, dir, lo, hi) && Small(c, dir)
    requires IsCode(c, L, r) && Rev(L, v) == NextCode(c.lens, L) + r && IsLevel(c.l, w) && w < L
    ensures t < |dir| && dir[t].w == w && dir[t].pre == Low(v, w)
    decreases w
  {
    if w == 0 {
      t := 0;
    } else {
      hide Rev, NextCode, Directory, Slots, Tiled, Kept, Low;
      t := TableAbove(c, T, dir, lo, hi, v, L, r, w - c.l);
      t := TableBelow(c, T, dir, lo, hi, v, L, r, t);
    }
  }

  /** Where there is a gap, some table is larger than a level. */
  lemma GapIsLarge(c: Layout, T: seq<Huft>, dir: seq<Tab>, lo: nat, hi: nat)
    requires Built(c, T, dir, lo, hi) && Gap(c)
    ensures !Small(c, dir)
  {
    hide Rev, Shl, NextCode, Count, Fits, Slots, Tiled, Kept, Low, IsLevel;
    if Small(c, dir) {
      var w: nat, L: nat, r: nat, x: nat :| GapAt(c, w, L, r, x);
      Room(c, L);
      var v := RevInverse(L, NextCode(c.lens, L) + r);
      var t := TableAbove(c, T, dir, lo, hi, v, L, r, w);
      assert TabOK(c, dir[t], lo, hi);
      RegionStart(c, v, w, L, r, x);
      RegionOfLow(c.g, w, v, dir[t].pre);
      DeepOrNot(c, L, r, w, dir[t].pre);
      assert false;
    }
  }

  /** A code whose bits after the first w are zero begins where their region begins. */
  lemma RegionStart(c: Layout, v: nat, w: nat, L: nat, r: nat, x: nat)
    requires c.Valid() && IsCode(c, L, r) && w < L && Rev(L, v) == NextCode(c.lens, L) + r == Shl(x, L - w)
    ensures PatLo(c.g, w, v) == c.Start(L, r)
  {
    hide Rev, NextCode, Count, Shl;
    var n := L - w;
    RevSplit(w, n, v);
    var a, b := Rev(w, v), Rev(n, Shr(v, w));
    RevBound(n, Shr(v, w));
    if a < x { ShlMono(a + 1, x, n); ShlAdd(a, 1, n); }
    if x < a { ShlMono(x + 1, a, n); ShlAdd(x, 1, n); }
    ShlShl(a, n, c.g - L);
  }

  // ----- the slots of a finished build -----

  lemma {:induction false} AscendingBases(c: Layout, dir: seq<Tab>, lo: nat, hi: nat, t: nat, t': nat, idx: nat,
          idx': nat)
    requires Directory(c, dir, lo, hi) && t < |dir| && t' < |dir|
    requires idx < Pow2(dir[t].jb) && idx' < Pow2(dir[t'].jb) && dir[t].base + idx == dir[t'].base + idx'
    ensures t == t' && idx == idx'
  {
  }

  /** Every place in use is written as the codes call for, or is one of those that no
      code uses and is as it was before. */
  lemma SlotWritten(c: Layout, T: seq<Huft>, dir: seq<Tab>, lo: nat, hi: nat, p: nat)
    requires Built(c, T, dir, lo, hi) && lo <= p < hi
    ensures Written(c, T, dir, p) || (p < |c.was| && T[p] == c.was[p])
    ensures Small(c, dir) ==> Written(c, T, dir, p)
  {
    hide Rev, Shl, NextCode, Count, Fits, SlotOK, Sized;
    var t := TiledAt(dir, lo, hi, p);
    var idx := p - dir[t].base;
    assert TabOK(c, dir[t], lo, hi);
    if idx < Pow2(Wide(c, dir[t])) {
      AllDone(c, T, dir, lo, hi, t, idx);
      assert WrittenAs(c, T, dir, p, t, idx);
    } else {
      assert KeptAt(c, T, dir, t, idx);
    }
  }

  /** A table larger than a level has a slot that is not written. */
  lemma SlotUnset(c: Layout, T: seq<Huft>, dir: seq<Tab>, lo: nat, hi: nat, t: nat) returns (p: nat)
    requires Built(c, T, dir, lo, hi) && t < |dir| && dir[t].jb > c.l
    ensures lo <= p < hi && !Written(c, T, dir, p)
  {
    hide Rev, Shl, NextCode, Count, Fits, SlotOK, Sized, Slots;
    assert TabOK(c, dir[t], lo, hi);
    Pow2Mono(c.l + 1, dir[t].jb);
    assert Pow2(c.l + 1) == 2 * Pow2(c.l) by { Doubled(c.l); }
    p := dir[t].base + Pow2(c.l);
    if Written(c, T, dir, p) {
      var t': nat, idx: nat :| WrittenAs(c, T, dir, p, t', idx);
      WideFits(c, dir, lo, hi, t');
      AscendingBases(c, dir, lo, hi, t, t', Pow2(c.l), idx);
      assert false;
    }
  }

  lemma Doubled(n: nat)
    ensures Pow2(n + 1) == 2 * Pow2(n)
  {
  }

  /** Every slot of every table is written if and only if the code has no gap; where
      one is not, it holds what was there before. */
  lemma AllWritten(c: Layout, T: seq<Huft>, dir: seq<Tab>, lo: nat, hi: nat)
    requires Built(c, T, dir, lo, hi)
    ensures (forall p: nat :: lo <= p < hi ==> Written(c, T, dir, p)) <==> !Gap(c)
    ensures forall p: nat :: lo <= p < hi && !Written(c, T, dir, p) ==> p < |c.was| && T[p] == c.was[p]
    ensures Small(c, dir) <==> !Gap(c)
  {
    hide Directory, Slots, Tiled, Kept, Written, Gap;
    forall p: nat | lo <= p < hi
      ensures Written(c, T, dir, p) || (p < |c.was| && T[p] == c.was[p])
      ensures Small(c, dir) ==> Written(c, T, dir, p)
    {
      SlotWritten(c, T, dir, lo, hi, p);
    }
    if Gap(c) { GapIsLarge(c, T, dir, lo, hi); }
    if !Small(c, dir) {
      var t: nat :| t < |dir| && dir[t].jb > c.l;
      LargeIsGap(c, dir, lo, hi, t);
      var p := SlotUnset(c, T, dir, lo, hi, t);
    }
  }

  /** There is no gap where one level is enough, or where there are too few codes. */
  lemma FewCodesNoGap(c: Layout)
    requires c.Valid() && c.FewCodes()
    ensures !Gap(c)
  {
    hide Rev, NextCode, Count;
    if Gap(c) {
      var w: nat, L: nat, r: nat, x: nat :| GapAt(c, w, L, r, x);
      Room(c, L);
      var v := RevInverse(L, NextCode(c.lens, L) + r);
      RegionStart(c, v, w, L, r, x);
      PatWidth(c.g, w, v);
      HiAtMost(c.g, w, v);
      NoSkip(c, L, r, w);
      assert false;
    }
  }
}
