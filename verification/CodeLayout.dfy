/** How huft_build lays a code out: its completed code as a run of adjoining
    intervals of g-bit patterns (first stream bit on top), a directory of the
    tables allocated so far, and the condition every table slot meets once the
    codes have been placed up to a given pattern. */
module CodeLayout {
  import opened Bits
  import opened Canonical
  import opened HuffTables

  /** A code of maximum length g, filled up with y dummy codes of length g, the l
      bits a table is indexed with, and the space for tables as it was before. */
  datatype Layout = Layout(lens: seq<nat>, m: Meaning, g: nat, y: nat, l: nat, was: seq<Huft>) {

    ghost predicate Valid() {
      && Lengths(lens) && m.Covers(|lens|)
      && 1 <= l <= g <= MAXBITS
      && (forall s :: 0 <= s < |lens| ==> lens[s] <= g)
      && 1 <= Count(lens, g)
      && NextCode(lens, g) + Count(lens, g) + y == Pow2(g)
    }

    /** Codes of length L, dummies included. */
    ghost function Codes(L: nat): nat {
      Count(lens, L) + if L == g then y else 0
    }

    /** The pattern at which the r-th code of length L begins. */
    ghost function Start(L: nat, r: nat): nat {
      if L <= g then Shl(NextCode(lens, L) + r, g - L) else 0
    }

    /** The entry for the r-th code of length L in a table that w bits lead to. */
    ghost predicate Leaf(e: Huft, L: nat, r: nat, w: nat)
      requires Valid() && w <= L
    {
      if r < Count(lens, L) then
        Nth(lens, L, r) < |lens| && e == m.Entry(Nth(lens, L, r), L - w)
      else
        e.exop == INVALID && e.bits == L - w && (g <= l ==> e.base == m.Entry(LastSymbol(), 0).base)
    }

    /** The last symbol in code order. */
    ghost function LastSymbol(): nat
      requires Valid()
    {
      Nth(lens, g, Count(lens, g) - 1)
    }

    /** All codes from the r-th of length L on. */
    ghost function CodesFrom(L: nat, r: nat): int
      decreases if L <= g then g - L + 1 else 0
    {
      if L > g then 0 else Codes(L) - r + CodesFrom(L + 1, 0)
    }

    /** One level is enough, or there are too few codes for one table entry to
        hold only codes that are more than a whole level longer. */
    ghost predicate FewCodes() {
      g <= l || CodesFrom(1, 0) < Pow2(l + 1)
    }
  }

  // ----- the codes in order -----

  lemma {:induction false} Room(c: Layout, L: nat)
    requires c.Valid() && 1 <= L <= c.g
    ensures NextCode(c.lens, L) + c.Codes(L) <= Pow2(L)
    ensures L < c.g ==> NextCode(c.lens, L) + c.Codes(L) < Pow2(L)
    decreases c.g - L
  {
    if L < c.g {
      Room(c, L + 1);
      assert NextCode(c.lens, L + 1) == 2 * (NextCode(c.lens, L) + Count(c.lens, L));
      if L + 1 < c.g {
      } else {
        assert Count(c.lens, c.g) >= 1;
      }
    }
  }

  /** Where the codes of length L end, those of length L + 1 begin. */
  lemma StartNext(c: Layout, L: nat)
    requires c.Valid() && 1 <= L < c.g
    ensures c.Start(L + 1, 0) == c.Start(L, c.Codes(L))
  {
    ShlDouble(NextCode(c.lens, L) + Count(c.lens, L), c.g - L - 1);
  }

  lemma StartAdd(c: Layout, L: nat, r: nat, n: nat)
    requires L <= c.g
    ensures c.Start(L, r + n) == c.Start(L, r) + Shl(n, c.g - L)
  {
    ShlAdd(NextCode(c.lens, L) + r, n, c.g - L);
  }

  lemma {:induction false} StartMono(c: Layout, L: nat, M: nat)
    requires c.Valid() && 1 <= L < M <= c.g
    ensures c.Start(L, c.Codes(L)) <= c.Start(M, 0)
    decreases M
  {
    NextCodeMono(c.lens, L, M, c.g);
  }

  /** A code that begins no earlier than another is at least as long. */
  lemma LaterIsLonger(c: Layout, k: nat, r: nat, L: nat, r': nat)
    requires c.Valid() && 1 <= k <= c.g && 1 <= L <= c.g && r' < c.Codes(L)
    requires c.Start(k, r) <= c.Start(L, r')
    ensures k <= L
  {
    if L < k {
      StartMono(c, L, k);
      StartAdd(c, L, r', 1);
      ShlMono(NextCode(c.lens, L) + r' + 1, NextCode(c.lens, L) + c.Codes(L), c.g - L);
      StartAdd(c, k, 0, r);
    }
  }

  lemma {:induction false} CodesFromStep(c: Layout, L: nat, M: nat)
    requires 1 <= L <= M
    ensures c.CodesFrom(L, 0) >= c.CodesFrom(M, 0)
    decreases M - L
  {
    if L < M && L <= c.g {
      CodesFromStep(c, L + 1, M);
    } else if L < M {
      assert c.CodesFrom(M, 0) == 0;
    }
  }

  /** Codes of length k and more need at least their share of patterns. */
  lemma {:induction false} RestBound(c: Layout, k: nat, r: nat, L: nat)
    requires c.Valid() && 1 <= L <= k <= c.g && r <= c.Codes(k)
    ensures c.CodesFrom(k, r) >= 0
    ensures Pow2(c.g) - c.Start(k, r) <= Shl(c.CodesFrom(k, r), c.g - L)
    decreases c.g - k
  {
    var rest := c.Codes(k) - r;
    StartAdd(c, k, r, rest);
    ShlLonger(rest, c.g - k, c.g - L);
    if k == c.g {
      assert c.CodesFrom(c.g + 1, 0) == 0;
      assert c.Start(k, c.Codes(k)) == Pow2(c.g);
    } else {
      StartNext(c, k);
      RestBound(c, k + 1, 0, L);
      ShlAdd(rest, c.CodesFrom(k + 1, 0), c.g - L);
    }
  }

  lemma ShlLonger(v: nat, m: nat, n: nat)
    requires m <= n
    ensures Shl(v, m) <= Shl(v, n)
  {
    ShlShl(v, m, n - m);
  }

  /** If nothing shorter than k is left and 2^(g-w) patterns are, then k bits
      are at most l more than w: the next table is never skipped over. */
  lemma NoSkip(c: Layout, k: nat, r: nat, w: nat)
    requires c.Valid() && c.FewCodes() && 1 <= k <= c.g && r < c.Codes(k) && w <= k
    requires c.Start(k, r) + Pow2(c.g - w) <= Pow2(c.g)
    requires c.g > c.l
    ensures k <= w + c.l
  {
    if k > w + c.l {
      var all := c.CodesFrom(k, r);
      RestBound(c, k, r, k);
      CodesFromStep(c, 1, k);
      ShlShl(1, k - w, c.g - k);
      ShlMono(Pow2(k - w), all, c.g - k);
      assert Pow2(k - w) <= all;
      Pow2Mono(c.l + 1, k - w);
      assert false;
    }
  }

  // ----- the directory of tables -----

  /** A table of 2^jb entries at `base`, reached by the w stream bits `pre`. */
  datatype Tab = Tab(base: nat, jb: nat, w: nat, pre: nat) {
    ghost function Pat(idx: nat): nat { pre + Shl(idx, w) }
  }

  /** The patterns that begin with the low w bits of `pre`. */
  ghost function PatLo(g: nat, w: nat, pre: nat): nat {
    if w <= g then Shl(Rev(w, pre), g - w) else 0
  }

  ghost function PatHi(g: nat, w: nat, pre: nat): nat {
    if w <= g then Shl(Rev(w, pre) + 1, g - w) else 0
  }

  /** Every code in the region of the w bits `pre` is longer than w, and a
      table of jb bits there holds it unless the table is a full level. */
  ghost predicate Fits(c: Layout, jb: nat, w: nat, pre: nat) {
    forall L: nat, r: nat :: 1 <= L <= c.g && r < c.Codes(L)
      && PatLo(c.g, w, pre) <= c.Start(L, r) < PatHi(c.g, w, pre)
      ==> w < L && (L <= w + jb || jb >= c.l)
  }

  /** A number of whole levels. */
  ghost predicate IsLevel(l: nat, w: nat) {
    w == 0 || (1 <= l <= w && IsLevel(l, w - l))
  }

  ghost predicate IsCode(c: Layout, L: nat, r: nat) { 1 <= L <= c.g && r < c.Codes(L) }

  /** Every code in the region is more than a whole level longer than the bits that
      lead to it. */
  ghost predicate Deep(c: Layout, w: nat, pre: nat) {
    forall L: nat, r: nat :: IsCode(c, L, r) && PatLo(c.g, w, pre) <= c.Start(L, r) < PatHi(c.g, w, pre) ==> L > w + c.l
  }

  ghost predicate Begins(c: Layout, w: nat, pre: nat) {
    exists L: nat, r: nat :: IsCode(c, L, r) && c.Start(L, r) == PatLo(c.g, w, pre)
  }

  /** The size that the counts call for: no smaller than the codes of the region
      need, and more than a level only if all of them are longer than a level. */
  ghost predicate Sized(c: Layout, jb: nat, w: nat, pre: nat) {
    && IsLevel(c.l, w) && Begins(c, w, pre)
    && c.Start(w + jb, 0) < PatHi(c.g, w, pre)
    && (jb > c.l <==> Deep(c, w, pre))
  }

  ghost predicate TabOK(c: Layout, tab: Tab, lo: nat, hi: nat) {
    && lo <= tab.base && tab.base + Pow2(tab.jb) <= hi
    && 1 <= tab.jb && tab.w + tab.jb <= c.g && tab.pre < Pow2(tab.w)
    && Fits(c, tab.jb, tab.w, tab.pre) && Sized(c, tab.jb, tab.w, tab.pre)
  }

  /** How many bits of the index the codes use: at most a level. */
  ghost function Wide(c: Layout, tab: Tab): nat {
    if tab.jb <= c.l then tab.jb else c.l
  }

  ghost predicate Small(c: Layout, dir: seq<Tab>) {
    forall t :: 0 <= t < |dir| ==> dir[t].jb <= c.l
  }

  ghost predicate Directory(c: Layout, dir: seq<Tab>, lo: nat, hi: nat) {
    && lo <= hi
    && (forall t :: 0 <= t < |dir| ==> TabOK(c, dir[t], lo, hi))
    && (forall t, t' :: 0 <= t < t' < |dir| ==> dir[t].base + Pow2(dir[t].jb) <= dir[t'].base)
  }

  ghost predicate LinkTo(c: Layout, e: Huft, at: nat, child: Tab) {
    at < child.base && e == Huft(child.jb, c.l, child.base - at)
  }

  /** A finished slot holds the code its pattern begins with, or leads to the
      table for its pattern. */
  ghost predicate SlotOK(c: Layout, T: seq<Huft>, dir: seq<Tab>, t: nat, idx: nat)
    requires c.Valid() && t < |dir| && dir[t].base + idx < |T|
  {
    var tab := dir[t];
    var pat := tab.Pat(idx);
    var e := T[tab.base + idx];
    LeafAt(c, e, tab, pat) || (tab.jb >= c.l && exists t': nat :: ChildAt(c, e, dir, t, t', idx))
  }

  /** The later table t' holds what the slot's pattern leads to, and e links to it. */
  ghost predicate ChildAt(c: Layout, e: Huft, dir: seq<Tab>, t: nat, t': nat, idx: nat)
  {
    && t < t' < |dir| && dir[t'].w == dir[t].w + c.l && dir[t'].pre == dir[t].Pat(idx)
    && LinkTo(c, e, dir[t].base + idx, dir[t'])
  }

  ghost predicate LeafAt(c: Layout, e: Huft, tab: Tab, pat: nat)
    requires c.Valid()
  {
    var L := tab.w + e.bits;
    && 1 <= e.bits <= tab.jb && L <= c.g
    && NextCode(c.lens, L) <= Rev(L, pat) < NextCode(c.lens, L) + c.Codes(L)
    && c.Leaf(e, L, Rev(L, pat) - NextCode(c.lens, L), tab.w)
  }

  /** Every slot that the codes use and whose patterns all lie below S is finished. */
  ghost predicate Slots(c: Layout, T: seq<Huft>, dir: seq<Tab>, S: nat)
    requires c.Valid()
  {
    forall t: nat, idx: nat :: t < |dir| && idx < Pow2(Wide(c, dir[t])) ==> SlotDone(c, T, dir, S, t, idx)
  }

  ghost predicate SlotDone(c: Layout, T: seq<Huft>, dir: seq<Tab>, S: nat, t: nat, idx: nat)
    requires c.Valid() && t < |dir|
  {
    && dir[t].base + idx < |T|
    && (PatHi(c.g, dir[t].w + Wide(c, dir[t]), dir[t].Pat(idx)) <= S ==> SlotOK(c, T, dir, t, idx))
  }

  // ----- finished tables decode the code -----

  /** The bits that lead to a table and the bits that index it, joined. */
  lemma PatIsPeek(tab: Tab, inp: seq<byte>, pos: nat)
    requires tab.pre == Peek(inp, pos, tab.w)
    ensures tab.Pat(Peek(inp, pos + tab.w, tab.jb)) == Peek(inp, pos, tab.w + tab.jb)
  {
    PeekCut(inp, pos, tab.w, tab.jb);
    LowShr(Peek(inp, pos, tab.w + tab.jb), tab.w);
  }

  lemma PeekMsbOfPat(inp: seq<byte>, pos: nat, L: nat, d: nat)
    requires L <= d
    ensures Rev(L, Peek(inp, pos, d)) == PeekMsb(inp, pos, L)
  {
    PeekMsbIsRev(inp, pos, L);
    PeekCut(inp, pos, L, d - L);
    RevLow(L, L, Peek(inp, pos, d));
  }

  lemma {:induction false} EntryKind(m: Meaning, n: nat, sym: nat, bits: nat)
    requires m.Covers(n) && sym < n
    ensures !IsLink(m.Entry(sym, bits))
    ensures IsBad(m.Entry(sym, bits)) <==> m.Entry(sym, bits).exop == INVALID
    ensures m.Entry(sym, bits).bits == bits
  {
    var x := m.Entry(sym, bits).exop;
    if sym >= m.s {
      var v := m.e[sym - m.s];
      assert v < 16 || v == 112;
      if v < 16 {
        assert x / 16 == 5;
      }
    }
  }

  /** A dummy code is nobody's code. */
  lemma DummyMatchesNothing(c: Layout, inp: seq<byte>, pos: nat, s: nat)
    requires c.Valid()
    requires PeekMsb(inp, pos, c.g) >= NextCode(c.lens, c.g) + Count(c.lens, c.g)
    ensures !Matches(c.lens, s, inp, pos)
  {
    if Matches(c.lens, s, inp, pos) {
      var L, g := c.lens[s], c.g;
      RankBound(c.lens, s);
      if L < g {
        PrefixInterval(inp, pos, L, g, Code(c.lens, s));
        ShlMono(Code(c.lens, s) + 1, NextCode(c.lens, L) + Count(c.lens, L), g - L);
        NextCodeMono(c.lens, L, g, g);
      }
      assert false;
    }
  }

  /** What a lookup that ends at e yields. */
  ghost function Result(e: Huft, end: nat): Hit {
    if IsBad(e) then Miss else Hit(e.exop, e.base, end)
  }

  lemma RealLeafIsHit(c: Layout, e: Huft, w: nat, L: nat, inp: seq<byte>, pos: nat)
    requires c.Valid() && w < L <= c.g && NextCode(c.lens, L) <= PeekMsb(inp, pos, L)
    requires PeekMsb(inp, pos, L) - NextCode(c.lens, L) < Count(c.lens, L)
    requires c.Leaf(e, L, PeekMsb(inp, pos, L) - NextCode(c.lens, L), w)
    ensures !IsLink(e) && Result(e, pos + L) == CodeHit(c.lens, c.m, inp, pos)
  {
    var sym := Nth(c.lens, L, PeekMsb(inp, pos, L) - NextCode(c.lens, L));
    assert Matches(c.lens, sym, inp, pos);
    DecodeUnique(c.lens, sym, inp, pos);
    EntryKind(c.m, |c.lens|, sym, L - w);
    EntryKind(c.m, |c.lens|, sym, L);
  }

  lemma DummyLeafIsMiss(c: Layout, inp: seq<byte>, pos: nat)
    requires c.Valid()
    requires PeekMsb(inp, pos, c.g) >= NextCode(c.lens, c.g) + Count(c.lens, c.g)
    ensures CodeHit(c.lens, c.m, inp, pos) == Miss
  {
    var sym := Decode(c.lens, inp, pos);
    if sym >= 0 { DummyMatchesNothing(c, inp, pos, sym); }
  }

  lemma LeafIsHit(c: Layout, e: Huft, tab: Tab, pat: nat, inp: seq<byte>, pos: nat)
    requires c.Valid() && LeafAt(c, e, tab, pat)
    requires Rev(tab.w + e.bits, pat) == PeekMsb(inp, pos, tab.w + e.bits)
    ensures !IsLink(e) && Result(e, pos + tab.w + e.bits) == CodeHit(c.lens, c.m, inp, pos)
  {
    hide NextCode, Count, PeekMsb, Rev, Nth, CodeHit;
    var L := tab.w + e.bits;
    if PeekMsb(inp, pos, L) - NextCode(c.lens, L) < Count(c.lens, L) {
      RealLeafIsHit(c, e, tab.w, L, inp, pos);
    } else {
      DummyLeafIsMiss(c, inp, pos);
    }
  }

  /** The slot that a lookup in table t lands on. */
  lemma LandsOn(c: Layout, T: seq<Huft>, dir: seq<Tab>, lo: nat, hi: nat, t: nat, inp: seq<byte>, pos: nat)
    returns (idx: nat)
    requires c.Valid() && Directory(c, dir, lo, hi) && hi <= |T|
    requires Slots(c, T, dir, Pow2(c.g)) && Small(c, dir)
    requires t < |dir| && dir[t].pre == Peek(inp, pos, dir[t].w)
    ensures idx == Peek(inp, pos + dir[t].w, dir[t].jb) && idx < Pow2(dir[t].jb)
    ensures dir[t].base + idx < |T| && SlotOK(c, T, dir, t, idx)
    ensures dir[t].Pat(idx) == Peek(inp, pos, dir[t].w + dir[t].jb)
  {
    hide SlotOK, Shl;
    idx := Peek(inp, pos + dir[t].w, dir[t].jb);
    PeekBound(inp, pos + dir[t].w, dir[t].jb);
    PatIsPeek(dir[t], inp, pos);
    AllDone(c, T, dir, lo, hi, t, idx);
  }

  lemma WalkLeaf(c: Layout, T: seq<Huft>, tab: Tab, idx: nat, inp: seq<byte>, pos: nat)
    requires c.Valid() && idx == Peek(inp, pos + tab.w, tab.jb) && tab.base + idx < |T|
    requires LeafAt(c, T[tab.base + idx], tab, tab.Pat(idx))
    requires tab.Pat(idx) == Peek(inp, pos, tab.w + tab.jb)
    ensures Walk(T, tab.base, tab.jb, inp, pos + tab.w) == CodeHit(c.lens, c.m, inp, pos)
  {
    hide NextCode, Count, Rev, CodeHit;
    var e := T[tab.base + idx];
    PeekMsbOfPat(inp, pos, tab.w + e.bits, tab.w + tab.jb);
    LeafIsHit(c, e, tab, tab.Pat(idx), inp, pos);
  }

  /** Every table of a finished directory decodes the code that the bits
      leading to it began. */
  lemma {:induction false} WalkTable(c: Layout, T: seq<Huft>, dir: seq<Tab>, lo: nat, hi: nat, t: nat, inp: seq<byte>,
          pos: nat)
    requires c.Valid() && Directory(c, dir, lo, hi) && hi <= |T|
    requires Slots(c, T, dir, Pow2(c.g)) && Small(c, dir)
    requires t < |dir| && dir[t].pre == Peek(inp, pos, dir[t].w)
    ensures Walk(T, dir[t].base, dir[t].jb, inp, pos + dir[t].w) == CodeHit(c.lens, c.m, inp, pos)
    decreases |dir| - t
  {
    hide LeafAt, CodeHit, Peek, Shl, Fits;
    var tab := dir[t];
    var idx := LandsOn(c, T, dir, lo, hi, t, inp, pos);
    var e := T[tab.base + idx];
    if LeafAt(c, e, tab, tab.Pat(idx)) {
      WalkLeaf(c, T, tab, idx, inp, pos);
    } else {
      var t': nat :| ChildAt(c, e, dir, t, t', idx);
      WalkChild(c, T, dir, lo, hi, t, t', idx, inp, pos);
      WalkTable(c, T, dir, lo, hi, t', inp, pos);
    }
  }

  /** Following one link. */
  lemma WalkChild(c: Layout, T: seq<Huft>, dir: seq<Tab>, lo: nat, hi: nat, t: nat, t': nat, idx: nat, inp: seq<byte>,
          pos: nat)
    requires c.Valid() && Directory(c, dir, lo, hi) && hi <= |T|
    requires t < |dir| && dir[t].base + idx < |T| && ChildAt(c, T[dir[t].base + idx], dir, t, t', idx)
    requires idx == Peek(inp, pos + dir[t].w, dir[t].jb)
    ensures Walk(T, dir[t].base, dir[t].jb, inp, pos + dir[t].w)
         == Walk(T, dir[t'].base, dir[t'].jb, inp, pos + dir[t'].w)
  {
    hide CodeHit, Peek, Shl, Fits, LeafAt;
    assert TabOK(c, dir[t'], lo, hi);
    LinkKind(c, T[dir[t].base + idx], dir[t].base + idx, dir[t']);
  }

  lemma LinkKind(c: Layout, e: Huft, at: nat, child: Tab)
    requires c.Valid() && LinkTo(c, e, at, child) && 1 <= child.jb <= MAXBITS
    ensures IsLink(e) && at + e.base == child.base && 1 <= e.base
  {
    assert e.exop / 16 == 0;
  }

  /** When all patterns are placed, every slot is finished. */
  lemma AllDone(c: Layout, T: seq<Huft>, dir: seq<Tab>, lo: nat, hi: nat, t: nat, idx: nat)
    requires c.Valid() && Directory(c, dir, lo, hi) && Slots(c, T, dir, Pow2(c.g))
    requires t < |dir| && idx < Pow2(Wide(c, dir[t]))
    ensures dir[t].base + idx < |T| && SlotOK(c, T, dir, t, idx)
  {
    hide LeafAt, ChildAt, NextCode, Count, Rev, Fits, Sized, SlotOK, Shl;
    var d := dir[t].w + Wide(c, dir[t]);
    assert TabOK(c, dir[t], lo, hi);
    assert SlotDone(c, T, dir, Pow2(c.g), t, idx);
    RevBound(d, dir[t].Pat(idx));
    ShlMono(Rev(d, dir[t].Pat(idx)) + 1, Pow2(d), c.g - d);
    ShlShl(1, d, c.g - d);
  }

  lemma {:induction false} FinishedTableOK(c: Layout, T: seq<Huft>, dir: seq<Tab>, lo: nat, hi: nat, t: nat)
    requires c.Valid() && Small(c, dir) && Directory(c, dir, lo, hi) && hi <= |T|
    requires Slots(c, T, dir, Pow2(c.g))
    requires t < |dir|
    ensures TableOK(T, hi, c.l, dir[t].base, dir[t].jb, dir[t].w)
    decreases |dir| - t
  {
    hide NextCode, Count, Rev, Shl, Fits;
    var tab := dir[t];
    assert TabOK(c, tab, lo, hi);
    forall i: nat | tab.base <= i < tab.base + Pow2(tab.jb)
      ensures EntryOK(T, hi, c.l, i, tab.jb, tab.w)
    {
      var idx := i - tab.base;
      AllDone(c, T, dir, lo, hi, t, idx);
      var e := T[i];
      if LeafAt(c, e, tab, tab.Pat(idx)) {
        LeafNotLink(c, e, tab, tab.Pat(idx));
      } else {
        var t': nat :| ChildAt(c, e, dir, t, t', idx);
        assert TabOK(c, dir[t'], lo, hi);
        LinkKind(c, e, tab.base + idx, dir[t']);
        FinishedTableOK(c, T, dir, lo, hi, t');
      }
    }
  }

  lemma LeafNotLink(c: Layout, e: Huft, tab: Tab, pat: nat)
    requires c.Valid() && LeafAt(c, e, tab, pat)
    ensures !IsLink(e)
  {
    var L := tab.w + e.bits;
    var r := Rev(L, pat) - NextCode(c.lens, L);
    if r < Count(c.lens, L) {
      EntryKind(c.m, |c.lens|, Nth(c.lens, L, r), e.bits);
    }
  }
}
