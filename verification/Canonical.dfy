/** The canonical Huffman code of a vector of code lengths, exactly as section
    3.2.2 of RFC 1951 assigns it: a symbol of length 0 has no code, shorter
    codes come first, and symbols of equal length are numbered in order. */
module Canonical {
  import opened Bits

  const MAXBITS: nat := 15

  ghost predicate Lengths(lens: seq<nat>) {
    forall s :: 0 <= s < |lens| ==> lens[s] <= MAXBITS
  }

  /** How many symbols have length L (bl_count). */
  function Count(lens: seq<nat>, L: nat): (r: nat)
  {
    if |lens| == 0 then 0
    else Count(lens[..|lens| - 1], L) + if lens[|lens| - 1] == L then 1 else 0
  }

  /** The smallest code of length L (next_code). */
  function NextCode(lens: seq<nat>, L: nat): (r: nat)
  {
    if L <= 1 then 0 else 2 * (NextCode(lens, L - 1) + Count(lens, L - 1))
  }

  /** How many earlier symbols have the same length as s. */
  function Rank(lens: seq<nat>, s: nat): (r: nat)
    requires s < |lens|
  {
    Count(lens[..s], lens[s])
  }

  function Code(lens: seq<nat>, s: nat): (r: nat)
    requires s < |lens|
  {
    NextCode(lens, lens[s]) + Rank(lens, s)
  }

  /** The code of symbol s is the next thing in the stream. */
  ghost predicate Matches(lens: seq<nat>, s: nat, inp: seq<byte>, pos: nat) {
    s < |lens| && 0 < lens[s] && PeekMsb(inp, pos, lens[s]) == Code(lens, s)
  }

  /** The symbol whose code comes next, if there is one. */
  ghost function Decode(lens: seq<nat>, inp: seq<byte>, pos: nat): (r: int)
    ensures r == -1 || 0 <= r < |lens|
    ensures r >= 0 ==> Matches(lens, r, inp, pos)
  {
    if s: nat :| Matches(lens, s, inp, pos) then s else -1
  }

  /** The share of all 15-bit patterns that the codes lay claim to (the Kraft
      sum, scaled by 2^15). */
  function Kraft(lens: seq<nat>): (r: nat)
  {
    if |lens| == 0 then 0
    else
      var L := lens[|lens| - 1];
      Kraft(lens[..|lens| - 1]) + if 0 < L <= MAXBITS then Pow2(MAXBITS - L) else 0
  }

  ghost predicate Complete(lens: seq<nat>) { Kraft(lens) == Pow2(MAXBITS) }

  ghost predicate AllZero(lens: seq<nat>) {
    forall s :: 0 <= s < |lens| ==> lens[s] == 0
  }

  // ----- counting -----

  lemma {:induction false} CountBound(lens: seq<nat>, L: nat)
    ensures Count(lens, L) <= |lens|
  {
    if |lens| > 0 { CountBound(lens[..|lens| - 1], L); }
  }

  lemma {:induction false} CountPrefix(lens: seq<nat>, i: nat, L: nat)
    requires i <= |lens|
    ensures Count(lens[..i], L) <= Count(lens, L)
    ensures i < |lens| ==> Count(lens[..i + 1], L) == Count(lens[..i], L) + if lens[i] == L then 1 else 0
  {
    if i < |lens| {
      assert lens[..i + 1][..i] == lens[..i];
      assert lens[..|lens| - 1][..i] == lens[..i];
      CountPrefix(lens[..|lens| - 1], i, L);
    } else {
      assert lens[..i] == lens;
    }
  }

  lemma {:induction false} CountZero(lens: seq<nat>, L: nat)
    ensures Count(lens, L) == 0 <==> forall s :: 0 <= s < |lens| ==> lens[s] != L
  {
    if |lens| > 0 {
      var p := lens[..|lens| - 1];
      CountZero(p, L);
      assert forall s :: 0 <= s < |p| ==> p[s] == lens[s];
      if forall s :: 0 <= s < |p| ==> p[s] != L {
        assert forall s :: 0 <= s < |lens| ==> s == |p| || lens[s] == p[s];
      } else {
        var s :| 0 <= s < |p| && p[s] == L;
        assert lens[s] == L;
      }
    }
  }

  /** The r-th symbol of length L. */
  function Nth(lens: seq<nat>, L: nat, r: nat): (s: nat)
    ensures r < Count(lens, L) ==> s < |lens| && lens[s] == L && Rank(lens, s) == r
  {
    if |lens| == 0 then 0
    else
      var p := lens[..|lens| - 1];
      if lens[|lens| - 1] == L && Count(p, L) == r then |lens| - 1
      else
        var s := Nth(p, L, r);
        assert s < |p| ==> lens[..s] == p[..s];
        s
  }

  /** Symbols of equal length and rank are the same symbol. */
  lemma RankInjective(lens: seq<nat>, s: nat, t: nat)
    requires s < t < |lens| && lens[s] == lens[t]
    ensures Rank(lens, s) < Rank(lens, t)
  {
    CountPrefix(lens[..t], s, lens[s]);
    CountPrefix(lens[..t], s + 1, lens[s]);
    assert lens[..t][..s] == lens[..s];
    assert lens[..t][..s + 1] == lens[..s + 1];
    CountPrefix(lens, s, lens[s]);
  }

  lemma RankBound(lens: seq<nat>, s: nat)
    requires s < |lens|
    ensures Rank(lens, s) < Count(lens, lens[s])
  {
    CountPrefix(lens, s, lens[s]);
    CountPrefix(lens, s + 1, lens[s]);
  }

  lemma NthRank(lens: seq<nat>, s: nat)
    requires s < |lens|
    ensures Nth(lens, lens[s], Rank(lens, s)) == s
  {
    RankBound(lens, s);
    var t := Nth(lens, lens[s], Rank(lens, s));
    if t < s {
      RankInjective(lens, t, s);
    } else if s < t {
      RankInjective(lens, s, t);
    }
  }

  // ----- codes as intervals -----

  /** The codes of length L end where those of length L + 1 begin. */
  lemma {:induction false} NextCodeMono(lens: seq<nat>, L: nat, M: nat, g: nat)
    requires 1 <= L < M <= g
    ensures Shl(NextCode(lens, L) + Count(lens, L), g - L) <= Shl(NextCode(lens, M), g - M)
    decreases M
  {
    ShlDouble(NextCode(lens, M - 1) + Count(lens, M - 1), g - M);
    if L < M - 1 {
      NextCodeMono(lens, L, M - 1, g);
      ShlMono(NextCode(lens, M - 1), NextCode(lens, M - 1) + Count(lens, M - 1), g - (M - 1));
    }
  }

  lemma PeekMsbBracket(inp: seq<byte>, pos: nat, L: nat, n: nat)
    ensures Shl(PeekMsb(inp, pos, L), n) <= PeekMsb(inp, pos, L + n) < Shl(PeekMsb(inp, pos, L) + 1, n)
  {
    hide Rev, Shl, Shr, Low, Peek, PeekMsb;
    var v := Peek(inp, pos, L + n);
    PeekMsbIsRev(inp, pos, L + n);
    PeekMsbIsRev(inp, pos, L);
    PeekCut(inp, pos, L, n);
    RevLow(L, L, v);
    RevSplit(L, n, v);
    RevBound(n, Shr(v, L));
    ShlAdd(PeekMsb(inp, pos, L), 1, n);
  }

  /** The next L bits are code c exactly when the next g bits, as a number
      with the first bit on top, lie between c and c + 1 scaled to g bits. */
  lemma PrefixInterval(inp: seq<byte>, pos: nat, L: nat, g: nat, c: nat)
    requires L <= g
    ensures PeekMsb(inp, pos, L) == c
       <==> Shl(c, g - L) <= PeekMsb(inp, pos, g) < Shl(c + 1, g - L)
  {
    hide PeekMsb, Shl;
    var x, n := PeekMsb(inp, pos, L), g - L;
    PeekMsbBracket(inp, pos, L, n);
    if x < c {
      ShlMono(x + 1, c, n);
    } else if c < x {
      ShlMono(c + 1, x, n);
    }
  }

  /** No code is a prefix of another: at most one symbol matches. */
  lemma PrefixFree(lens: seq<nat>, s: nat, t: nat, inp: seq<byte>, pos: nat)
    requires Lengths(lens)
    requires Matches(lens, s, inp, pos) && Matches(lens, t, inp, pos)
    ensures s == t
  {
    if lens[s] < lens[t] {
      PrefixFreeOrdered(lens, s, t, inp, pos);
    } else if lens[t] < lens[s] {
      PrefixFreeOrdered(lens, t, s, inp, pos);
    } else if s < t {
      RankInjective(lens, s, t);
    } else if t < s {
      RankInjective(lens, t, s);
    }
  }

  lemma PrefixFreeOrdered(lens: seq<nat>, s: nat, t: nat, inp: seq<byte>, pos: nat)
    requires Lengths(lens) && s < |lens| && t < |lens| && lens[s] < lens[t]
    ensures !(Matches(lens, s, inp, pos) && Matches(lens, t, inp, pos))
  {
    hide NextCode, Count, Shl, PeekMsb;
    if Matches(lens, s, inp, pos) && Matches(lens, t, inp, pos) {
      var L, M, g := lens[s], lens[t], MAXBITS;
      PrefixInterval(inp, pos, L, g, Code(lens, s));
      PrefixInterval(inp, pos, M, g, Code(lens, t));
      RankBound(lens, s);
      ShlMono(Code(lens, s) + 1, NextCode(lens, L) + Count(lens, L), g - L);
      NextCodeMono(lens, L, M, g);
      ShlMono(NextCode(lens, M), Code(lens, t), g - M);
      assert false;
    }
  }

  /** Decode finds a symbol exactly when its code comes next. */
  lemma DecodeUnique(lens: seq<nat>, s: nat, inp: seq<byte>, pos: nat)
    requires Lengths(lens)
    ensures Decode(lens, inp, pos) == s <==> Matches(lens, s, inp, pos)
  {
    if Matches(lens, s, inp, pos) {
      var t := Decode(lens, inp, pos);
      PrefixFree(lens, s, t, inp, pos);
    }
  }

  // ----- the Kraft sum -----

  /** The part of the Kraft sum due to lengths up to L. */
  function KraftUpTo(lens: seq<nat>, L: nat): (r: nat)
  {
    if |lens| == 0 then 0
    else
      var k := lens[|lens| - 1];
      KraftUpTo(lens[..|lens| - 1], L) + if 0 < k <= L && k <= MAXBITS then Pow2(MAXBITS - k) else 0
  }

  lemma {:induction false} KraftStep(lens: seq<nat>, L: nat)
    requires 0 < L <= MAXBITS
    ensures KraftUpTo(lens, L) == KraftUpTo(lens, L - 1) + Shl(Count(lens, L), MAXBITS - L)
  {
    if |lens| == 0 {
      ShlZero(MAXBITS - L);
    } else {
      KraftStep(lens[..|lens| - 1], L);
      ShlAdd(Count(lens[..|lens| - 1], L), 1, MAXBITS - L);
    }
  }

  lemma {:induction false} KraftIsCode(lens: seq<nat>, L: nat)
    requires 0 < L <= MAXBITS
    ensures KraftUpTo(lens, L) == Shl(NextCode(lens, L) + Count(lens, L), MAXBITS - L)
  {
    KraftStep(lens, L);
    ShlAdd(NextCode(lens, L), Count(lens, L), MAXBITS - L);
    if L == 1 {
      KraftNone(lens);
      ShlZero(MAXBITS - L);
    } else {
      KraftIsCode(lens, L - 1);
      ShlDouble(NextCode(lens, L - 1) + Count(lens, L - 1), MAXBITS - L);
    }
  }

  lemma {:induction false} KraftNone(lens: seq<nat>)
    ensures KraftUpTo(lens, 0) == 0
  {
    if |lens| > 0 { KraftNone(lens[..|lens| - 1]); }
  }

  lemma {:induction false} KraftAll(lens: seq<nat>, g: nat)
    requires g <= MAXBITS && forall s :: 0 <= s < |lens| ==> lens[s] <= g
    ensures KraftUpTo(lens, g) == Kraft(lens)
  {
    if |lens| > 0 { KraftAll(lens[..|lens| - 1], g); }
  }

  lemma KraftOfCode(lens: seq<nat>, g: nat)
    requires 1 <= g <= MAXBITS && forall s :: 0 <= s < |lens| ==> lens[s] <= g
    ensures Kraft(lens) == Shl(NextCode(lens, g) + Count(lens, g), MAXBITS - g)
  {
    KraftAll(lens, g);
    KraftIsCode(lens, g);
  }

  /** k, a share of the 15-bit patterns, compares to all of them as x, the
      same share of the g-bit patterns, does. */
  ghost predicate SameShare(k: nat, x: nat, g: nat) {
    (k > Pow2(MAXBITS) <==> x > Pow2(g)) && (k == Pow2(MAXBITS) <==> x == Pow2(g))
  }

  lemma ShareScales(k: nat, x: nat, g: nat)
    requires g <= MAXBITS && k == Shl(x, MAXBITS - g)
    ensures SameShare(k, x, g)
  {
    ShlCompare(x, g, MAXBITS - g);
  }

  /** With no length above g, the Kraft sum compares to 1 as the end of the
      codes of length g compares to the number of g-bit patterns. */
  lemma KraftSign(lens: seq<nat>, g: nat)
    requires 1 <= g <= MAXBITS && forall s :: 0 <= s < |lens| ==> lens[s] <= g
    ensures SameShare(Kraft(lens), NextCode(lens, g) + Count(lens, g), g)
  {
    hide NextCode, Count, Shl, Kraft, Pow2, SameShare;
    KraftOfCode(lens, g);
    ShareScales(Kraft(lens), NextCode(lens, g) + Count(lens, g), g);
  }

  /** A complete code of n symbols has a code no longer than log2 n. */
  lemma {:induction false} KraftShort(lens: seq<nat>, L: nat)
    requires Lengths(lens) && L <= MAXBITS
    requires forall s :: 0 <= s < |lens| ==> lens[s] == 0 || lens[s] >= L
    ensures Kraft(lens) <= Shl(|lens|, MAXBITS - L)
  {
    if |lens| > 0 {
      var p := lens[..|lens| - 1];
      KraftShort(p, L);
      ShlAdd(|p|, 1, MAXBITS - L);
      var k := lens[|lens| - 1];
      if k > 0 { Pow2Mono(MAXBITS - k, MAXBITS - L); }
    }
  }

  // ----- complete codes -----

  /** Whatever comes before the end of the codes of length L begins with a code
      of at most L bits. */
  lemma {:induction false} Covered(lens: seq<nat>, inp: seq<byte>, pos: nat, L: nat)
    requires Lengths(lens) && 1 <= L <= MAXBITS
    requires PeekMsb(inp, pos, MAXBITS) < Shl(NextCode(lens, L) + Count(lens, L), MAXBITS - L)
    ensures exists s: nat :: Matches(lens, s, inp, pos)
    decreases L
  {
    hide PeekMsb, Shl;
    var x, n := PeekMsb(inp, pos, L), MAXBITS - L;
    PeekMsbBracket(inp, pos, L, n);
    assert L + n == MAXBITS;
    if x < NextCode(lens, L) {
      ShlMono(x + 1, NextCode(lens, L), n);
      ShlDouble(NextCode(lens, L - 1) + Count(lens, L - 1), n);
      Covered(lens, inp, pos, L - 1);
    } else {
      ShlMono(NextCode(lens, L) + Count(lens, L), x, n);
      var s := Nth(lens, L, x - NextCode(lens, L));
      assert Matches(lens, s, inp, pos);
    }
  }

  /** A complete code decodes every stream. */
  lemma CompleteDecodes(lens: seq<nat>, inp: seq<byte>, pos: nat)
    requires Lengths(lens) && Complete(lens)
    ensures Decode(lens, inp, pos) >= 0
  {
    hide Rev, Peek, PeekMsb, Kraft, NextCode, Count, Matches;
    KraftOfCode(lens, MAXBITS);
    PeekMsbIsRev(inp, pos, MAXBITS);
    RevBound(MAXBITS, Peek(inp, pos, MAXBITS));
    Covered(lens, inp, pos, MAXBITS);
  }

  // ----- the order of the codes -----

  /** By length, and symbols of one length in order. */
  ghost predicate Earlier(lens: seq<nat>, s: nat, t: nat) {
    && s < |lens| && t < |lens| && 0 < lens[s] && 0 < lens[t]
    && (lens[s] < lens[t] || (lens[s] == lens[t] && s < t))
  }

  lemma {:induction false} CountNone(lens: seq<nat>, from: nat, to: nat, L: nat)
    requires from <= to <= |lens| && forall j :: from <= j < to ==> lens[j] != L
    ensures Count(lens[..to], L) == Count(lens[..from], L)
  {
    if from < to {
      CountNone(lens, from, to - 1, L);
      CountPrefix(lens, to - 1, L);
    }
  }

  /** Lengths that no symbol has leave the codes as they are, but for their scale. */
  lemma {:induction false} NextCodeOver(lens: seq<nat>, L: nat, M: nat)
    requires L < M && forall k :: L < k < M ==> Count(lens, k) == 0
    ensures 0 < L ==> NextCode(lens, M) == Shl(NextCode(lens, L) + Count(lens, L), M - L)
    ensures L == 0 ==> NextCode(lens, M) == 0
  {
    if L < M - 1 {
      NextCodeOver(lens, L, M - 1);
    } else if L > 0 {
      assert Shl(NextCode(lens, L) + Count(lens, L), 1) == 2 * (NextCode(lens, L) + Count(lens, L));
    }
  }

  /** The first code in this order is all zeros, and each code is the one before it plus
      one, made longer by zeros where the length grows: the two rules of section 3.2.2. */
  lemma CodeOrder(lens: seq<nat>, t: nat)
    requires t < |lens| && 0 < lens[t]
    ensures (forall u: nat :: !Earlier(lens, u, t)) ==> Code(lens, t) == 0
    ensures forall s: nat :: Earlier(lens, s, t) && (forall u: nat :: !(Earlier(lens, s, u) && Earlier(lens, u, t))) ==>
        Code(lens, t) == Shl(Code(lens, s) + 1, lens[t] - lens[s])
  {
    hide NextCode, Count, Shl, Code;
    if forall u: nat :: !Earlier(lens, u, t) { FirstCode(lens, t); }
    forall s: nat | Earlier(lens, s, t) && (forall u: nat :: !(Earlier(lens, s, u) && Earlier(lens, u, t)))
      ensures Code(lens, t) == Shl(Code(lens, s) + 1, lens[t] - lens[s])
    {
      FollowingCode(lens, s, t);
    }
  }

  lemma FirstCode(lens: seq<nat>, t: nat)
    requires t < |lens| && 0 < lens[t] && forall u: nat :: !Earlier(lens, u, t)
    ensures Code(lens, t) == 0
  {
    var M := lens[t];
    forall k | 0 < k < M
      ensures Count(lens, k) == 0
    {
      CountZero(lens, k);
      assert forall u: nat :: u < |lens| && lens[u] == k ==> Earlier(lens, u, t);
    }
    NextCodeOver(lens, 0, M);
    CountZero(lens[..t], M);
    assert forall u: nat :: u < t && lens[..t][u] == M ==> Earlier(lens, u, t);
  }

  lemma FollowingCode(lens: seq<nat>, s: nat, t: nat)
    requires Earlier(lens, s, t) && forall u: nat :: !(Earlier(lens, s, u) && Earlier(lens, u, t))
    ensures Code(lens, t) == Shl(Code(lens, s) + 1, lens[t] - lens[s])
  {
    var L, M := lens[s], lens[t];
    CountPrefix(lens, s, L);
    if L == M {
      forall j | s < j < t
        ensures lens[j] != L
      {
        assert !(Earlier(lens, s, j) && Earlier(lens, j, t));
      }
      CountNone(lens, s + 1, t, L);
    } else {
      forall j | s < j < |lens|
        ensures lens[j] != L
      {
        assert !(Earlier(lens, s, j) && Earlier(lens, j, t));
      }
      CountNone(lens, s + 1, |lens|, L);
      assert lens[..|lens|] == lens;
      forall j | 0 <= j < t
        ensures lens[j] != M
      {
        assert !(Earlier(lens, s, j) && Earlier(lens, j, t));
      }
      CountNone(lens, 0, t, M);
      forall k | L < k < M
        ensures Count(lens, k) == 0
      {
        CountZero(lens, k);
        assert forall u: nat :: u < |lens| && lens[u] == k ==> Earlier(lens, s, u) && Earlier(lens, u, t);
      }
      NextCodeOver(lens, L, M);
    }
  }

  lemma {:induction false} KraftUpToBound(lens: seq<nat>, L: nat)
    ensures KraftUpTo(lens, L) <= Kraft(lens)
  {
    if |lens| > 0 { KraftUpToBound(lens[..|lens| - 1], L); }
  }

  /** The codes of a set of lengths that is not over-subscribed have no more bits than
      their lengths. */
  lemma CodeFits(lens: seq<nat>, s: nat)
    requires Lengths(lens) && Kraft(lens) <= Pow2(MAXBITS) && s < |lens| && 0 < lens[s]
    ensures Code(lens, s) < Pow2(lens[s])
  {
    hide NextCode, Count, Shl, Kraft, KraftUpTo;
    var L := lens[s];
    RankBound(lens, s);
    KraftIsCode(lens, L);
    KraftUpToBound(lens, L);
    ShlShl(1, L, MAXBITS - L);
    ShlMono(NextCode(lens, L) + Count(lens, L), Pow2(L), MAXBITS - L);
  }

  // ----- codes that are not complete -----

  /** A run of ones. */
  function Ones(): seq<byte> { [255, 255] }

  lemma OnesBit(i: nat)
    requires i < 16
    ensures Bit(Ones(), i) == 1
  {
    var k := i % 8;
    assert Ones()[i / 8] == 255;
    assert Shr(255, 3) == 31;
    if k < 3 { assert Shr(255, k) % 2 == 1; } else { ShrAdd(255, 3, k - 3); assert Shr(31, k - 3) % 2 == 1; }
  }

  lemma {:induction false} OnesPeek(n: nat)
    requires n <= 16
    ensures PeekMsb(Ones(), 0, n) + 1 == Pow2(n)
  {
    hide Bit;
    if n > 0 {
      OnesPeek(n - 1);
      OnesBit(n - 1);
    }
  }

  /** If the Kraft sum is less than 1, no symbol has a code of ones alone. */
  lemma IncompleteMisses(lens: seq<nat>)
    requires Lengths(lens) && Kraft(lens) < Pow2(MAXBITS)
    ensures Decode(lens, Ones(), 0) < 0
  {
    hide NextCode, Count, Shl, Kraft, KraftUpTo, PeekMsb;
    var s := Decode(lens, Ones(), 0);
    if s >= 0 {
      var L := lens[s];
      RankBound(lens, s);
      KraftIsCode(lens, L);
      KraftUpToBound(lens, L);
      ShlShl(1, L, MAXBITS - L);
      ShlMono(Pow2(L), NextCode(lens, L) + Count(lens, L), MAXBITS - L);
      OnesPeek(L);
    }
  }

  /** A code that is not over-subscribed is complete if and only if every stream begins with
      one of its codes. */
  lemma CompleteMeans(lens: seq<nat>)
    requires Lengths(lens) && Kraft(lens) <= Pow2(MAXBITS)
    ensures Complete(lens) <==> forall inp: seq<byte>, pos: nat :: Decode(lens, inp, pos) >= 0
  {
    hide Decode, Kraft;
    if Complete(lens) {
      forall inp: seq<byte>, pos: nat
        ensures Decode(lens, inp, pos) >= 0
      {
        CompleteDecodes(lens, inp, pos);
      }
    } else {
      IncompleteMisses(lens);
    }
  }
}
