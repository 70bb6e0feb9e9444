/** Multi-level Huffman lookup tables (inftrees.h) and what it means for them
    to decode a canonical code.  A table is a run of 2^n entries indexed by the
    next n stream bits; a long code is reached through links to further
    tables. */
module HuffTables {
  import opened Bits
  import opened Canonical

  /** struct inflate_huft_s: an operation, the number of bits to drop, and a
      literal, length base, distance base or table offset. */
  datatype Huft = Huft(exop: nat, bits: nat, base: nat)

  const INVALID: nat := 192

  predicate IsExtra(e: Huft) { e.exop / 16 % 2 == 1 }
  predicate IsLink(e: Huft) { e.exop != 0 && !IsExtra(e) && e.exop / 64 % 2 == 0 }
  predicate IsEnd(e: Huft) { e.exop != 0 && !IsExtra(e) && !IsLink(e) && e.exop / 32 % 2 == 1 }
  predicate IsBad(e: Huft) { e.exop != 0 && !IsExtra(e) && !IsLink(e) && !IsEnd(e) }

  /** The outcome of looking up one code: a usable entry and the position of
      the bit after its code, or nothing usable. */
  datatype Hit = Miss | Hit(exop: nat, base: nat, end: nat)

  /** Following the tables from the one at `tree`, indexed by `need` bits. */
  ghost function Walk(T: seq<Huft>, tree: nat, need: nat, inp: seq<byte>, pos: nat): Hit
    decreases if tree <= |T| then |T| - tree else 0
  {
    var i := tree + Peek(inp, pos, need);
    if i >= |T| then Miss
    else if IsLink(T[i]) then
      if 1 <= T[i].base && i + T[i].base <= |T| then
        Walk(T, i + T[i].base, T[i].exop, inp, pos + T[i].bits)
      else Miss
    else if IsBad(T[i]) then Miss
    else Hit(T[i].exop, T[i].base, pos + T[i].bits)
  }

  /** Every entry reachable from the table at `tree` lies inside `T[..hi]`,
      drops at least one bit and never more than its table was indexed with,
      tables are indexed with at most `cap` bits, and no code is longer than
      MAXBITS. */
  ghost predicate TableOK(T: seq<Huft>, hi: nat, cap: nat, tree: nat, need: nat, w: nat)
    decreases MAXBITS - w, 1
  {
    && w + need <= MAXBITS
    && 1 <= need <= cap
    && tree + Pow2(need) <= hi <= |T|
    && forall i: nat :: tree <= i < tree + Pow2(need) ==> EntryOK(T, hi, cap, i, need, w)
  }

  ghost predicate EntryOK(T: seq<Huft>, hi: nat, cap: nat, i: nat, need: nat, w: nat)
    requires i < hi <= |T| && w + need <= MAXBITS
    decreases MAXBITS - w, 0
  {
    && 1 <= T[i].bits <= need
    && (IsLink(T[i]) ==> 1 <= T[i].base && TableOK(T, hi, cap, i + T[i].base, T[i].exop, w + T[i].bits))
  }

  /** The parameters of a call to huft_build that say what a symbol means:
      symbols below `s` stand for themselves, the others index `d` and `e`. */
  datatype Meaning = Meaning(s: nat, d: seq<nat>, e: seq<nat>) {
    ghost predicate Covers(n: nat) {
      && (n <= s || (n - s <= |d| && n - s <= |e|))
      && forall j :: 0 <= j < |e| ==> e[j] < 16 || e[j] == 112
    }

    /** The operation and base for a symbol, before its bit count is known. */
    function Entry(sym: nat, bits: nat): (r: Huft)
      requires sym < s || (sym - s < |d| && sym - s < |e|)
    {
      if sym < s then Huft(if sym < 256 then 0 else 32 + 64, bits, sym)
      else Huft(e[sym - s] + 16 + 64, bits, d[sym - s])
    }
  }

  /** The same outcome, taken from the code itself instead of from tables. */
  ghost function CodeHit(lens: seq<nat>, m: Meaning, inp: seq<byte>, pos: nat): Hit
    requires m.Covers(|lens|)
  {
    var sym := Decode(lens, inp, pos);
    if sym < 0 then Miss
    else
      var e := m.Entry(sym, lens[sym]);
      if IsBad(e) then Miss else Hit(e.exop, e.base, pos + e.bits)
  }

  /** The tables at `tree` decode the canonical code of `lens`. */
  ghost predicate Decodes(T: seq<Huft>, tree: nat, need: nat, lens: seq<nat>, m: Meaning) {
    && m.Covers(|lens|)
    && forall inp: seq<byte>, pos: nat :: Walk(T, tree, need, inp, pos) == CodeHit(lens, m, inp, pos)
  }

  // ----- tables only depend on the part of memory they occupy -----

  ghost predicate SameRange(T: seq<Huft>, U: seq<Huft>, lo: nat, hi: nat) {
    |T| == |U| && hi <= |T| && forall i :: lo <= i < hi ==> T[i] == U[i]
  }

  lemma {:induction false} TableFrame(T: seq<Huft>, U: seq<Huft>, lo: nat, hi: nat, cap: nat, tree: nat, need: nat,
          w: nat)
    requires SameRange(T, U, lo, hi) && lo <= tree && TableOK(T, hi, cap, tree, need, w)
    ensures TableOK(U, hi, cap, tree, need, w)
    decreases MAXBITS - w
  {
    forall i: nat | tree <= i < tree + Pow2(need)
      ensures EntryOK(U, hi, cap, i, need, w)
    {
      assert EntryOK(T, hi, cap, i, need, w);
      if IsLink(T[i]) {
        TableFrame(T, U, lo, hi, cap, i + T[i].base, T[i].exop, w + T[i].bits);
      }
    }
  }

  lemma {:induction false} WalkFrame(T: seq<Huft>, U: seq<Huft>, lo: nat, hi: nat, cap: nat, tree: nat, need: nat,
          w: nat,
                                     inp: seq<byte>, pos: nat)
    requires SameRange(T, U, lo, hi) && lo <= tree && TableOK(T, hi, cap, tree, need, w)
    ensures Walk(T, tree, need, inp, pos) == Walk(U, tree, need, inp, pos)
    decreases MAXBITS - w
  {
    var i := tree + Peek(inp, pos, need);
    PeekBound(inp, pos, need);
    assert EntryOK(T, hi, cap, i, need, w);
    if IsLink(T[i]) {
      WalkFrame(T, U, lo, hi, cap, i + T[i].base, T[i].exop, w + T[i].bits, inp, pos + T[i].bits);
    }
  }

  lemma DecodesFrame(T: seq<Huft>, U: seq<Huft>, lo: nat, hi: nat, cap: nat, tree: nat, need: nat, lens: seq<nat>,
          m: Meaning)
    requires SameRange(T, U, lo, hi) && lo <= tree && TableOK(T, hi, cap, tree, need, 0)
    requires Decodes(T, tree, need, lens, m)
    ensures Decodes(U, tree, need, lens, m)
  {
    forall inp: seq<byte>, pos: nat
      ensures Walk(U, tree, need, inp, pos) == CodeHit(lens, m, inp, pos)
    {
      WalkFrame(T, U, lo, hi, cap, tree, need, 0, inp, pos);
      assert Walk(T, tree, need, inp, pos) == CodeHit(lens, m, inp, pos);
    }
  }
}
