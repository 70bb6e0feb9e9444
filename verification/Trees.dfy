/** inftrees.c: the three callers of huft_build, and the meaning of length and
    distance symbols (section 3.2.5 of RFC 1951). */
module Trees {
  import opened Bits
  import opened Canonical
  import opened HuffTables
  import opened CodeLayout
  import opened Placement
  import opened TableGaps
  import opened InfTrees

  /** Copy lengths and extra bits for literal codes 257..285 (two more exist
      only in the fixed code and are invalid). */
  const CPLENS: seq<nat> :=
    [3, 4, 5, 6, 7, 8, 9, 10, 11, 13, 15, 17, 19, 23, 27, 31, 35, 43, 51, 59, 67, 83, 99, 115, 131, 163, 195, 227, 258,
      0, 0]
  const CPLEXT: seq<nat> :=
    [0, 0, 0, 0, 0, 0, 0, 0, 1, 1, 1, 1, 2, 2, 2, 2, 3, 3, 3, 3, 4, 4, 4, 4, 5, 5, 5, 5, 0, 112, 112]

  /** Copy offsets and extra bits for distance codes 0..29. */
  const CPDIST: seq<nat> :=
    [1, 2, 3, 4, 5, 7, 9, 13, 17, 25, 33, 49, 65, 97, 129, 193, 257, 385, 513, 769, 1025, 1537, 2049, 3073, 4097, 6145,
     8193, 12289, 16385, 24577]
  const CPDEXT: seq<nat> :=
    [0, 0, 0, 0, 1, 1, 2, 2, 3, 3, 4, 4, 5, 5, 6, 6, 7, 7, 8, 8, 9, 9, 10, 10, 11, 11, 12, 12, 13, 13]

  /** Extra bits and base of a length symbol and of a distance symbol. */
  function LengthBits(s: nat): nat requires 257 <= s <= 285 { CPLEXT[s - 257] }
  function LengthBase(s: nat): nat requires 257 <= s <= 285 { CPLENS[s - 257] }
  function DistanceBits(s: nat): nat requires s < 30 { CPDEXT[s] }
  function DistanceBase(s: nat): (r: nat) requires s < 30 ensures r > 0 { CPDIST[s] }

  const LITERALS := Meaning(257, CPLENS, CPLEXT)
  const DISTANCES := Meaning(0, CPDIST, CPDEXT)
  const PLAIN := Meaning(19, [], [])

  lemma ExtraFirst(i: nat)
    requires i < 16
    ensures CPLEXT[i] < 16
  {
  }

  lemma ExtraLast(i: nat)
    requires 16 <= i < 31
    ensures CPLEXT[i] < 16 || CPLEXT[i] == 112
  {
  }

  lemma ExtraDistance(i: nat)
    requires i < 30
    ensures CPDEXT[i] < 16
  {
  }

  lemma MeaningsCover()
    ensures LITERALS.Covers(288) && DISTANCES.Covers(30)
  {
    assert |CPLENS| == |CPLEXT| == 31 && |CPDIST| == |CPDEXT| == 30;
    forall i: nat | i < 31
      ensures CPLEXT[i] < 16 || CPLEXT[i] == 112
    {
      if i < 16 { ExtraFirst(i); } else { ExtraLast(i); }
    }
    forall i: nat | i < 30
      ensures CPDEXT[i] < 16
    {
      ExtraDistance(i);
    }
  }

  lemma CoversFewer(m: Meaning, n: nat, k: nat)
    requires m.Covers(n) && k <= n
    ensures m.Covers(k)
  {
  }

  /** A code that huft_build accepts: complete, or a lone code of one bit. */
  ghost predicate Accepted(lens: seq<nat>) {
    Complete(lens) || (!AllZero(lens) && NoLonger(lens, 1) && Kraft(lens) < Pow2(MAXBITS))
  }

  /** The symbol that the code-length table yields.  The table is read without
      looking at the operation, so with a lone one-bit code both bit values
      yield its symbol. */
  ghost function LenSymbol(lens: seq<nat>, inp: seq<byte>, pos: nat): (s: nat)
    requires Accepted(lens) && Lengths(lens)
    ensures s < |lens|
  {
    LoneSymbol(lens);
    if Decode(lens, inp, pos) >= 0 then Decode(lens, inp, pos)
    else
      CompleteDecodesNot(lens, inp, pos);
      Nth(lens, 1, Count(lens, 1) - 1)
  }

  lemma CompleteDecodesNot(lens: seq<nat>, inp: seq<byte>, pos: nat)
    requires Lengths(lens) && Accepted(lens) && Decode(lens, inp, pos) < 0
    ensures !AllZero(lens) && NoLonger(lens, 1)
  {
    if Complete(lens) { CompleteDecodes(lens, inp, pos); }
  }

  lemma LoneSymbol(lens: seq<nat>)
    ensures !AllZero(lens) && NoLonger(lens, 1) ==> Count(lens, 1) > 0
  {
    CountZero(lens, 1);
  }

  /** The table found at tb gives the next code-length symbol and its length. */
  ghost predicate ReadsLengths(T: seq<Huft>, tb: nat, bb: nat, lens: seq<nat>) {
    && Accepted(lens) && Lengths(lens)
    && forall inp: seq<byte>, pos: nat :: ReadsLength(T, tb, bb, lens, inp, pos)
  }

  ghost predicate ReadsLength(T: seq<Huft>, tb: nat, bb: nat, lens: seq<nat>, inp: seq<byte>, pos: nat)
    requires Accepted(lens) && Lengths(lens)
  {
    && tb + Peek(inp, pos, bb) < |T|
    && T[tb + Peek(inp, pos, bb)].base == LenSymbol(lens, inp, pos)
    && 1 <= T[tb + Peek(inp, pos, bb)].bits == lens[LenSymbol(lens, inp, pos)] <= bb
  }

  lemma FlatReadsLengths(T: seq<Huft>, hi: nat, tb: nat, bb: nat, lens: seq<nat>)
    requires |lens| <= 19 && Accepted(lens) && Lengths(lens) && Flat(T, tb, bb, lens, PLAIN)
    requires TableOK(T, hi, bb, tb, bb, 0)
    ensures ReadsLengths(T, tb, bb, lens)
  {
    forall inp: seq<byte>, pos: nat
      ensures ReadsLength(T, tb, bb, lens, inp, pos)
    {
      assert FlatAt(T, tb, bb, lens, PLAIN, inp, pos);
      PeekBound(inp, pos, bb);
      assert EntryOK(T, hi, bb, tb + Peek(inp, pos, bb), bb, 0);
      if Decode(lens, inp, pos) < 0 { CompleteDecodesNot(lens, inp, pos); }
    }
  }

  /** zlib_inflate_trees_bits: the code of the code lengths. */
  method TreesBits(c: seq<nat>, hp: array<Huft>, v: array<nat>) returns (rc: Status, bb: nat, tb: nat)
    requires |c| == 19 && NoLonger(c, 7) && Lengths(c) && MANY <= hp.Length && 19 <= v.Length
    modifies hp, v
    ensures rc != BufError
    ensures rc == Ok <==> Accepted(c)
    ensures rc == Ok ==> 1 <= bb <= 7 && ReadsLengths(hp[..], tb, bb, c)
  {
    ghost var many, lay, dir;
    var hn;
    Pow2Values();
    rc, tb, bb, hn, many, lay, dir := HuftBuild(c, PLAIN, 7, hp, 0, v);

    AcceptedKraft(c);
    if rc == BufError || bb == 0 {
      rc := DataError;
    }
    if rc == Ok { FlatReadsLengths(hp[..], hn, tb, bb, c); }
  }

  lemma AcceptedKraft(lens: seq<nat>)
    ensures AllZero(lens) ==> Kraft(lens) == 0 && !Accepted(lens)
  {
    if AllZero(lens) { KraftOfZero(lens); }
  }

  /** The distance code may be absent if there are no length symbols. */
  ghost predicate AcceptedDist(lens: seq<nat>, nl: nat) {
    Accepted(lens) || (AllZero(lens) && nl <= 257)
  }

  /** Tables in T[lo..hi] for one of the two codes of a block. */
  ghost predicate TreeFor(T: seq<Huft>, lo: nat, hi: nat, tree: nat, need: nat, lens: seq<nat>, m: Meaning) {
    && lo <= tree && TableOK(T, hi, 9, tree, need, 0) && Decodes(T, tree, need, lens, m)
  }

  lemma {:induction false} TableCap(T: seq<Huft>, hi: nat, cap: nat, cap': nat, tree: nat, need: nat, w: nat)
    requires cap <= cap' && TableOK(T, hi, cap, tree, need, w)
    ensures TableOK(T, hi, cap', tree, need, w)
    decreases MAXBITS - w
  {
    forall i: nat | tree <= i < tree + Pow2(need)
      ensures EntryOK(T, hi, cap', i, need, w)
    {
      assert EntryOK(T, hi, cap, i, need, w);
      if IsLink(T[i]) { TableCap(T, hi, cap, cap', i + T[i].base, T[i].exop, w + T[i].bits); }
    }
  }

  lemma TreeFrame(T: seq<Huft>, U: seq<Huft>, lo: nat, hi: nat, tree: nat, need: nat, lens: seq<nat>, m: Meaning)
    requires TreeFor(T, lo, hi, tree, need, lens, m) && SameRange(T, U, lo, hi)
    ensures TreeFor(U, lo, hi, tree, need, lens, m)
  {
    TableFrame(T, U, lo, hi, 9, tree, need, 0);
    DecodesFrame(T, U, lo, hi, 9, tree, need, lens, m);
  }

  /** The tables for b, from lo on, do not fit the space. */
  ghost predicate NoRoomFor(b: seq<nat>, ms: Meaning, m: nat, lo: nat) {
    exists c: Layout, hn: nat :: LayoutFor(c, b, ms, m, c.was) && NoRoom(c, lo, hn)
  }

  /** The tables for b take up the space from lo to hn. */
  ghost predicate TablesEnd(b: seq<nat>, ms: Meaning, m: nat, lo: nat, hn: nat) {
    exists c: Layout, T: seq<Huft>, dir: seq<Tab> :: LayoutFor(c, b, ms, m, c.was) && Built(c, T, dir, lo, hn)
  }

  /** The tables of the two codes of a block do not fit the space. */
  ghost predicate OutOfRoom(ll: seq<nat>, dl: seq<nat>) {
    || NoRoomFor(ll, LITERALS, 9, 0)
    || exists hn: nat :: TablesEnd(ll, LITERALS, 9, 0, hn) && NoRoomFor(dl, DISTANCES, 6, hn)
  }

  /** One build, as its callers see it: status, and the tree in its own part
      of the table space. */
  method BuildTree(b: seq<nat>, ms: Meaning, m: nat, hp: array<Huft>, hn: nat, v: array<nat>)
    returns (rc: Status, t: nat, m': nat, hn': nat, ghost many: bool)
    requires 0 < |b| <= 288 && Lengths(b) && ms.Covers(|b|) && 1 <= m <= 9 && |b| < Pow2(m + 1)
    requires MANY <= hp.Length && hn <= hp.Length && |b| <= v.Length
    modifies hp, v
    ensures forall j: nat :: j < hp.Length && (j < hn || j >= hn') ==> hp[j] == old(hp[j])
    ensures hn <= hn' && (many ==> rc == DataError && NoRoomFor(b, ms, m, hn))
    ensures !many ==> (rc == Ok <==> AllZero(b) || Accepted(b))
    ensures AllZero(b) ==> rc == Ok && m' == 0 && hn' == hn && !many
    ensures rc == Ok && !AllZero(b) ==> TablesEnd(b, ms, m, hn, hn')
    ensures rc == Ok && !AllZero(b) ==> m' > 0 && hn' <= hp.Length && TreeFor(hp[..], hn, hn', t, m', b, ms)
  {
    ghost var lay, dir;
    rc, t, m', hn', many, lay, dir := HuftBuild(b, ms, m, hp, hn, v);
    AcceptedKraft(b);
    assert many ==> LayoutFor(lay, b, ms, m, lay.was) && NoRoom(lay, hn, hn');
    assert rc == Ok && !AllZero(b) ==> LayoutFor(lay, b, ms, m, lay.was) && Built(lay, hp[..], dir, hn, hn');
    if rc == Ok && !AllZero(b) {
      if NoLonger(b, 1) { LongEnough(b, m); }
      TableCap(hp[..], hn', m', 9, t, m', 0);
    }
  }

  lemma LongEnough(b: seq<nat>, m: nat)
    requires 1 <= m && NoLonger(b, 1)
    ensures NoLonger(b, m)
  {
  }

  /** zlib_inflate_trees_dynamic: the two codes of a dynamic block. */
  method TreesDynamic(ll: seq<nat>, dl: seq<nat>, hp: array<Huft>, v: array<nat>)
    returns (rc: Status, bl: nat, bd: nat, tl: nat, td: nat, ghost many: bool)
    requires 257 <= |ll| <= 286 && 1 <= |dl| <= 30 && Lengths(ll) && Lengths(dl)
    requires MANY <= hp.Length && 288 <= v.Length
    modifies hp, v
    ensures rc != BufError && (many ==> rc == DataError && OutOfRoom(ll, dl))
    ensures !many ==> (rc == Ok <==> Accepted(ll) && AcceptedDist(dl, |ll|))
    ensures rc == Ok ==> HasTree(hp[..], tl, bl, ll, LITERALS)
    ensures rc == Ok && !AllZero(dl) ==> HasTree(hp[..], td, bd, dl, DISTANCES)
  {
    hide TreeFor, HasTree, Kraft, Pow2, Accepted, AllZero, Lengths, Meaning.Covers, NoRoomFor, TablesEnd;
    var hn, hn';
    Pow2Values();
    MeaningsCover();
    CoversFewer(LITERALS, 288, |ll|);
    CoversFewer(DISTANCES, 30, |dl|);
    AcceptedKraft(ll);
    AcceptedKraft(dl);
    rc, tl, bl, hn, many := BuildTree(ll, LITERALS, 9, hp, 0, v);
    bd, td := 0, 0;
    if rc != Ok || bl == 0 {
      rc := DataError;
      return;
    }
    ghost var T := hp[..];
    rc, td, bd, hn', many := BuildTree(dl, DISTANCES, 6, hp, hn, v);
    TreeFrame(T, hp[..], 0, hn, tl, bl, ll, LITERALS);
    TreeLower(hp[..], 0, hn, tl, bl, ll, LITERALS);
    if rc != Ok || (bd == 0 && |ll| > 257) {
      rc := DataError;
      return;
    }
    if !AllZero(dl) { TreeLower(hp[..], hn, hn', td, bd, dl, DISTANCES); }
  }

  ghost predicate HasTree(T: seq<Huft>, tree: nat, need: nat, lens: seq<nat>, m: Meaning) {
    exists hi: nat :: TreeFor(T, 0, hi, tree, need, lens, m)
  }

  lemma TreeLower(T: seq<Huft>, lo: nat, hi: nat, tree: nat, need: nat, lens: seq<nat>, m: Meaning)
    requires TreeFor(T, lo, hi, tree, need, lens, m)
    ensures TreeFor(T, 0, hi, tree, need, lens, m) && HasTree(T, tree, need, lens, m)
  {
    assert TreeFor(T, 0, hi, tree, need, lens, m);
  }

  // ----- the fixed codes -----

  /** Code lengths of the fixed literal/length code (section 3.2.6). */
  function FixedLiteral(): (lens: seq<nat>) {
    seq(288, i => if i < 144 then 8 else if i < 256 then 9 else if i < 280 then 7 else 8)
  }

  /** Only 30 of the 32 five-bit distance codes mean anything. */
  function FixedDistance(): (lens: seq<nat>) {
    seq(30, i => 5)
  }

  lemma {:induction false} KraftRun(p: seq<nat>, n: nat, L: nat, share: nat, total: nat)
    requires 0 < L <= MAXBITS && share == Pow2(MAXBITS - L) && total == Times(n, share)
    ensures Kraft(p + seq(n, _ => L)) == Kraft(p) + total
  {
    if n == 0 {
      assert p + seq(0, _ => L) == p;
    } else {
      var q := p + seq(n, _ => L);
      assert q[..|q| - 1] == p + seq(n - 1, _ => L);
      KraftRun(p, n - 1, L, share, Times(n - 1, share));
    }
  }

  function Times(n: nat, x: nat): nat { if n == 0 then 0 else Times(n - 1, x) + x }

  lemma {:induction false} TimesIs(n: nat, x: nat)
    ensures Times(n, x) == n * x
  {
    if n > 0 { TimesIs(n - 1, x); }
  }

  lemma FixedLiteralLengths()
    ensures Lengths(FixedLiteral()) && |FixedLiteral()| == 288 && NoLonger(FixedLiteral(), 9)
      && !AllZero(FixedLiteral())
  {
    assert FixedLiteral()[0] == 8;
  }

  lemma KraftNone()
    ensures Kraft([]) == 0
  {
  }

  /** The fixed literal/length code is complete. */
  lemma FixedLiteralComplete()
    ensures Complete(FixedLiteral()) && Lengths(FixedLiteral()) && |FixedLiteral()| == 288
      && NoLonger(FixedLiteral(), 9)
    ensures !AllZero(FixedLiteral()) && Kraft(FixedLiteral()) == Pow2(MAXBITS) && LITERALS.Covers(288)
  {
    hide Kraft, Meaning.Covers;
    Pow2Values();
    MeaningsCover();
    FixedLiteralLengths();
    var a: seq<nat> := [];
    var b := a + seq(144, _ => 8);
    var c := b + seq(112, _ => 9);
    var d := c + seq(24, _ => 7);
    var e := d + seq(8, _ => 8);
    assert e == FixedLiteral();
    KraftNone();
    TimesIs(144, 128); KraftRun(a, 144, 8, 128, 18432);
    TimesIs(112, 64); KraftRun(b, 112, 9, 64, 7168);
    TimesIs(24, 256); KraftRun(c, 24, 7, 256, 6144);
    TimesIs(8, 128); KraftRun(d, 8, 8, 128, 1024);
  }

  lemma FixedDistanceIncomplete()
    ensures Kraft(FixedDistance()) < Pow2(MAXBITS) && Lengths(FixedDistance()) && NoLonger(FixedDistance(), 5)
    ensures !AllZero(FixedDistance()) && |FixedDistance()| == 30 && DISTANCES.Covers(30)
  {
    Pow2Values();
    assert [] + seq(30, _ => 5) == FixedDistance();
    TimesIs(30, 1024);
    KraftRun([], 30, 5, 1024, 30720);
    assert FixedDistance()[0] == 5;
  }

  /** A build of a code whose lengths all fit the first table. */
  method BuildFlat(b: seq<nat>, ms: Meaning, m: nat, hp: array<Huft>, hn: nat, v: array<nat>)
    returns (t: nat, m': nat, ghost hn': nat)
    requires 0 < |b| <= 288 && Lengths(b) && ms.Covers(|b|) && m <= 9 && NoLonger(b, m) && !AllZero(b)
    requires Kraft(b) <= Pow2(MAXBITS) && hn + Pow2(m) <= MANY <= hp.Length && |b| <= v.Length
    modifies hp, v
    ensures forall j: nat :: j < hp.Length && (j < hn || j >= hn') ==> hp[j] == old(hp[j])
    ensures hn' <= hn + Pow2(m) && hn' <= hp.Length && TreeFor(hp[..], hn, hn', t, m', b, ms)
  {
    var rc, end;
    ghost var many, lay, dir;
    rc, t, m', end, many, lay, dir := HuftBuild(b, ms, m, hp, hn, v);
    hn' := end;
    TableCap(hp[..], hn', m', 9, t, m', 0);
  }

  lemma SameRest(T: seq<Huft>, U: seq<Huft>, lo: nat, hi: nat)
    requires |T| == |U| && hi <= |T| && forall i: nat :: lo <= i < |T| ==> U[i] == T[i]
    ensures SameRange(T, U, lo, hi)
  {
  }

  /** zlib_inflate_trees_fixed.  The start offset into the table space is the
      loop counter: 288 for the first build and 30 for the second. */
  method TreesFixed(hp: array<Huft>, v: array<nat>) returns (bl: nat, bd: nat, tl: nat, td: nat)
    requires MANY <= hp.Length && 288 <= v.Length
    modifies hp, v
    ensures HasTree(hp[..], tl, bl, FixedLiteral(), LITERALS)
    ensures HasTree(hp[..], td, bd, FixedDistance(), DISTANCES)
  {
    assert MANY == 1440;
    Pow2Values();
    FixedLiteralComplete();
    FixedDistanceIncomplete();
    ghost var hl, hd;
    tl, bl, hl := BuildFlat(FixedLiteral(), LITERALS, 9, hp, 288, v);
    ghost var T := hp[..];
    td, bd, hd := BuildFlat(FixedDistance(), DISTANCES, 5, hp, 30, v);
    SameRest(T, hp[..], 288, hl);
    TreeFrame(T, hp[..], 288, hl, tl, bl, FixedLiteral(), LITERALS);
    TreeLower(hp[..], 288, hl, tl, bl, FixedLiteral(), LITERALS);
    TreeLower(hp[..], 30, hd, td, bd, FixedDistance(), DISTANCES);
  }

  // ----- codes that leave entries unset -----

  /** A build with an unset entry is one of an incomplete code of more than one bit, for
      the numbers of symbols that the callers pass; they refuse it. */
  lemma GapRefused(c: Layout, b: seq<nat>, ms: Meaning, m: nat)
    requires LayoutFor(c, b, ms, m, c.was) && Gap(c) && |b| < Pow2(m + 1)
    ensures Kraft(b) < Pow2(MAXBITS) && !NoLonger(b, 1) && !Accepted(b)
  {
    hide Gap, NextCode;
    var j: nat :| WidthFor(c, m, j);
    KraftSign(b, c.g);
    if Complete(b) {
      UsableNoGap(c, m, j);
    } else if NoLonger(b, 1) {
      CountZero(b, c.g);
      FewCodesNoGap(c);
    }
  }

  /** The code lengths 1, 2, 3, 4, 5, 6 and 15. */
  function Skipping(): seq<nat> { [1, 2, 3, 4, 5, 6, 15] }

  lemma {:induction false} CountSkipping(n: nat, L: nat)
    requires n <= 7 && 1 <= L <= 15
    ensures Count(Skipping()[..n], L) == if L <= 6 && L <= n then 1 else if L == 15 && n == 7 then 1 else 0
  {
    if n > 0 {
      CountSkipping(n - 1, L);
      CountPrefix(Skipping(), n - 1, L);
    }
  }

  lemma {:induction false} NextSkipping(L: nat)
    requires 1 <= L <= 15
    ensures NextCode(Skipping(), L) == if L <= 7 then Pow2(L) - 2 else Pow2(L) - Pow2(L - 6)
  {
    assert Skipping()[..7] == Skipping();
    if L > 1 {
      NextSkipping(L - 1);
      CountSkipping(7, L - 1);
      assert Pow2(L) == 2 * Pow2(L - 1);
      if L > 7 { assert Pow2(L - 6) == 2 * Pow2(L - 7); }
    }
  }

  /** They can be sent for the distances, where tables of six bits are asked for, and
      the table for the last code is larger than a level. */
  lemma GapExample(was: seq<Huft>)
    ensures exists c: Layout :: LayoutFor(c, Skipping(), DISTANCES, 6, was) && Gap(c)
  {
    hide Count, NextCode, Meaning.Covers;
    var b := Skipping();
    assert b[..7] == b;
    forall L | 1 <= L <= 15
      ensures Count(b, L) == if L <= 6 || L == 15 then 1 else 0
    {
      CountSkipping(7, L);
    }
    NextSkipping(15);
    Pow2Values();
    MeaningsCover();
    CoversFewer(DISTANCES, 30, 7);
    var c := Layout(b, DISTANCES, 15, 511, 6, was);
    assert c.Valid();
    assert WidthFor(c, 6, 1);
    assert LayoutFor(c, b, DISTANCES, 6, was);
    assert Shl(63, 9) == 32256;
    assert IsLevel(6, 6);
    assert GapAt(c, 6, 15, 0, 63);
    assert Gap(c);
  }
}
