/** What the decompressor does against what the format says.  The decompressor
    takes every distance modulo the size of its window; the format (section
    3.2.3 of RFC 1951) only allows distances into the output so far.  The
    decompressor also reads a bit that is not the code of a lone code-length symbol
    as that symbol; such a block is refused all the same, if only later.  Apart
    from that the two agree on exactly the streams in which no distance reaches too
    far, whatever the window held at first. */
module Format {
  import opened Adler
  import opened Bits
  import opened Canonical
  import opened InfTrees
  import opened Trees
  import opened InfUtil
  import opened Deflate
  import Inflate

  ghost predicate Windowed(start: seq<byte>) { 0 < |start| }

  /** The two readings of a stream with a window of this size. */
  function Ours(start: seq<byte>): Reach { Ring(|start|) }
  function Theirs(start: seq<byte>): Reach { Strict(|start|) }

  lemma SameSource(start: seq<byte>, dist: nat, hist: seq<byte>)
    requires Windowed(start) && 0 < dist && InReach(Theirs(start), dist, hist)
    ensures Source(Ours(start), dist, start + hist) == dist == Source(Theirs(start), dist, hist) <= |hist|
    ensures (start + hist)[|start + hist| - dist] == hist[|hist| - dist]
  {
  }

  lemma {:induction false} SameCopy(start: seq<byte>, dist: nat, len: nat, hist: seq<byte>)
    requires Windowed(start) && 0 < dist && InReach(Theirs(start), dist, hist)
    ensures Copy(Ours(start), dist, len, start + hist) == start + Copy(Theirs(start), dist, len, hist)
    decreases len
  {
    if len > 0 {
      var x := hist[|hist| - dist];
      SameSource(start, dist, hist);
      assert start + hist + [x] == start + (hist + [x]);
      SameCopy(start, dist, len - 1, hist + [x]);
    }
  }

  /** The same symbol, after what the window held. */
  function After(start: seq<byte>, s: Step): Step {
    match s case More(p, h) => More(p, start + h) case _ => s
  }

  lemma SameDistance(start: seq<byte>, inp: seq<byte>, dl: seq<nat>, len: nat, pos: nat, hist: seq<byte>)
    requires Windowed(start) && |dl| <= 30
    ensures var s, r := Distance(inp, Theirs(start), dl, len, pos, hist),
      Distance(inp, Ours(start), dl, len, pos, start + hist);
      !s.WrongDistance? ==> r == After(start, s)
  {
    hide Copy, Decode, Peek, DistanceBits, DistanceBase;
    var c := Decode(dl, inp, pos);
    if c >= 0 {
      var dist := DistanceBase(c) + Peek(inp, pos + dl[c], DistanceBits(c));
      if InReach(Theirs(start), dist, hist) { SameCopy(start, dist, len, hist); }
    }
  }

  lemma SameSymbol(start: seq<byte>, inp: seq<byte>, ll: seq<nat>, dl: seq<nat>, pos: nat, hist: seq<byte>)
    requires Windowed(start) && Codes2(ll, dl)
    ensures var s, r := Symbol(inp, Theirs(start), ll, dl, pos, hist),
      Symbol(inp, Ours(start), ll, dl, pos, start + hist);
      !s.WrongDistance? ==> r == After(start, s)
  {
    hide Distance, Decode, Peek, LengthBits, LengthBase;
    var c := Decode(ll, inp, pos);
    if c >= 0 && c <= 285 {
      if c < 256 {
        assert start + hist + [c] == start + (hist + [c]);
      } else if c > 256 {
        var p := pos + ll[c];
        SameDistance(start, inp, dl, LengthBase(c) + Peek(inp, p, LengthBits(c)), p + LengthBits(c), hist);
      }
    }
  }

  /** The same part of a stream, or, once a distance reaches too far, more. */
  ghost predicate SamePart(start: seq<byte>, s: Part, r: Part) {
    match s
    case Done(p, h) => r == Done(p, start + h)
    case Fail(h) => r == Fail(start + h) || r == Cut(start + h)
    case Cut(h) => r == Cut(start + h)
    case FailDistance(h) => start + h <= r.hist
  }

  lemma {:induction false} SameBody(start: seq<byte>, inp: seq<byte>, ll: seq<nat>, dl: seq<nat>, pos: nat,
          hist: seq<byte>)
    requires Windowed(start) && Codes2(ll, dl)
    ensures SamePart(start, Body(inp, Theirs(start), ll, dl, pos, hist),
      Body(inp, Ours(start), ll, dl, pos, start + hist))
    decreases if pos <= Bits8(inp) then Bits8(inp) - pos + 2 else 1
  {
    hide Symbol;
    SameSymbol(start, inp, ll, dl, pos, hist);
    var s := Symbol(inp, Theirs(start), ll, dl, pos, hist);
    if s.More? { SameBody(start, inp, ll, dl, s.pos, s.hist); }
  }

  lemma {:induction false} SameStored(start: seq<byte>, inp: seq<byte>, left: nat, at: nat, hist: seq<byte>)
    requires at <= |inp|
    ensures SamePart(start, Stored(inp, left, at, hist), Stored(inp, left, at, start + hist))
    decreases left
  {
    if left > 0 && at < |inp| {
      assert start + hist + [inp[at]] == start + (hist + [inp[at]]);
      SameStored(start, inp, left - 1, at + 1, hist + [inp[at]]);
    }
  }

  lemma SameCodes(start: seq<byte>, inp: seq<byte>, t: nat, lens: seq<nat>, pos: nat, hist: seq<byte>)
    requires Windowed(start) && Table(t) && |lens| == Total(t)
    ensures SamePart(start, DynCodes(inp, Theirs(start), t, lens, pos, hist),
      DynCodes(inp, Ours(start), t, lens, pos, start + hist))
  {
    hide Body, Accepted, AcceptedDist;
    var ll, dl := lens[..257 + HLit(t)], lens[257 + HLit(t)..];
    SameBody(start, inp, ll, dl, pos, hist);
  }

  // ----- a lone code-length code -----

  /** All lengths so far are the same, and so is every one that will follow. */
  ghost predicate AllAre(lens: seq<nat>, x: nat) { forall i :: 0 <= i < |lens| ==> lens[i] == x }

  lemma {:induction false} EqualKraft(lens: seq<nat>, x: nat)
    requires AllAre(lens, x)
    ensures Kraft(lens) == if 0 < x <= MAXBITS then |lens| * Pow2(MAXBITS - x) else 0
  {
    if lens != [] {
      var p := lens[..|lens| - 1];
      EqualKraft(p, x);
      var q := if 0 < x <= MAXBITS then Pow2(MAXBITS - x) else 0;
      assert lens[|lens| - 1] == x && |lens| * q == |p| * q + q;
    }
  }

  /** Between 257 and 286 equal lengths are never a code that is accepted. */
  lemma EqualRefused(lens: seq<nat>, x: nat)
    requires AllAre(lens, x) && 257 <= |lens| <= 286 && x <= MAXBITS
    ensures !Accepted(lens)
  {
    EqualKraft(lens, x);
    Pow2Values();
    assert lens[0] == x;
    if x > 1 { assert !NoLonger(lens, 1); }
  }

  /** The one symbol of a lone code. */
  function Lone(bl: seq<nat>): nat
  {
    if Count(bl, 1) > 0 then Nth(bl, 1, Count(bl, 1) - 1) else 0
  }

  lemma LoneIs(bl: seq<nat>, inp: seq<byte>, pos: nat)
    requires Lengths(bl) && Accepted(bl) && !Complete(bl)
    ensures LenSymbol(bl, inp, pos) == Lone(bl)
  {
    CountZero(bl, 1);
    LoneCount(bl);
    var s := Decode(bl, inp, pos);
    if s >= 0 {
      assert bl[s] == 1;
      NthRank(bl, s);
      RankBound(bl, s);
    }
  }

  lemma {:induction false} OnesKraft(bl: seq<nat>)
    requires NoLonger(bl, 1)
    ensures Kraft(bl) == Count(bl, 1) * Pow2(MAXBITS - 1)
  {
    if bl != [] { OnesKraft(bl[..|bl| - 1]); }
  }

  lemma LoneCount(bl: seq<nat>)
    requires NoLonger(bl, 1) && Kraft(bl) < Pow2(MAXBITS) && Count(bl, 1) > 0
    ensures Count(bl, 1) == 1
  {
    OnesKraft(bl);
    Pow2Values();
  }

  /** With a lone code-length code, the lengths so far are all what it says. */
  ghost predicate LoneLens(bl: seq<nat>, lens: seq<nat>) {
    !Complete(bl) ==>
      var c := Lone(bl);
      AllAre(lens, if c < 16 then c else 0) && (c == 16 ==> lens == [])
  }

  /** What follows the lengths of a block whose code-length code is a lone one: they are
      all equal, and the block is refused, or cut short before that shows. */
  lemma {:induction false} LoneLengths(w: Reach, inp: seq<byte>, t: nat, bl: seq<nat>, lens: seq<nat>, c: nat, x: nat,
          pos: nat, hist: seq<byte>)
    requires w.Ring? && ReachOK(w, hist) && Table(t) && |bl| == 19 && Lengths(bl) && Accepted(bl) && !Complete(bl)
    requires |lens| <= Total(t) && c == Lone(bl) && LoneLens(bl, lens) && x == (if c < 16 then c else 0)
    ensures DynLengths(inp, w, t, bl, lens, pos, hist) == Fail(hist)
      || DynLengths(inp, w, t, bl, lens, pos, hist) == Cut(hist)
    decreases Total(t) - |lens|
  {
    hide DynCodes, LenSymbol, Accepted, Peek, Body, Complete, Lone;
    LoneIs(bl, inp, pos);
    if |lens| == Total(t) {
      LoneCodes(w, inp, t, lens, x, pos, hist);
    } else if c < 16 {
      if pos + bl[c] <= Bits8(inp) { LoneLengths(w, inp, t, bl, lens + [c], c, x, pos + bl[c], hist); }
    } else if c > 16 {
      var i := RunExtra(c);
      var j := RunBase(c) + Peek(inp, pos + bl[c], i);
      if pos + bl[c] + i <= Bits8(inp) && |lens| + j <= Total(t) {
        LoneLengths(w, inp, t, bl, lens + Repeat(j, 0), c, x, pos + bl[c] + i, hist);
      }
    }
  }

  lemma LoneCodes(w: Reach, inp: seq<byte>, t: nat, lens: seq<nat>, x: nat, pos: nat, hist: seq<byte>)
    requires ReachOK(w, hist) && Table(t) && |lens| == Total(t) && AllAre(lens, x) && x <= MAXBITS
    ensures DynCodes(inp, w, t, lens, pos, hist) == Fail(hist)
  {
    hide Body, Accepted, AcceptedDist;
    var ll := lens[..257 + HLit(t)];
    assert AllAre(ll, x);
    EqualRefused(ll, x);
  }

  lemma CompleteOrLone(bl: seq<nat>, inp: seq<byte>, pos: nat)
    requires Lengths(bl) && Accepted(bl) && Decode(bl, inp, pos) < 0
    ensures !Complete(bl)
  {
    if Complete(bl) { CompleteDecodes(bl, inp, pos); }
  }

  /** A code of one symbol, which has one bit. */
  ghost predicate OneSymbol(lens: seq<nat>, s: nat) {
    s < |lens| && lens[s] == 1 && forall t :: 0 <= t < |lens| && t != s ==> lens[t] == 0
  }

  lemma OneCount(lens: seq<nat>, s: nat)
    requires OneSymbol(lens, s)
    ensures Count(lens, 1) == 1
  {
    hide Count;
    CountNone(lens, 0, s, 1);
    CountPrefix(lens, s, 1);
    CountNone(lens, s + 1, |lens|, 1);
    CountPrefix(lens, 0, 1);
    CountZero(lens[..0], 1);
    assert lens[..|lens|] == lens;
  }

  lemma LoneOne(lens: seq<nat>)
    requires Lengths(lens) && Accepted(lens) && !Complete(lens)
    ensures exists s: nat :: OneSymbol(lens, s)
  {
    hide Count, Kraft;
    CountZero(lens, 1);
    LoneCount(lens);
    var s := Nth(lens, 1, 0);
    forall t: nat | t < |lens| && lens[t] != 0
      ensures t == s
    {
      NthRank(lens, t);
      RankBound(lens, t);
    }
    assert OneSymbol(lens, s);
  }

  /** What huft_build takes: of the codes that are not over-subscribed, those with which
      every stream begins with a code, and those of one symbol of one bit. */
  lemma AcceptedMeans(lens: seq<nat>)
    requires Lengths(lens) && Kraft(lens) <= Pow2(MAXBITS)
    ensures Accepted(lens)
       <==> (forall inp: seq<byte>, pos: nat :: Decode(lens, inp, pos) >= 0) || exists s: nat :: OneSymbol(lens, s)
  {
    hide Decode, Kraft, Count;
    CompleteMeans(lens);
    if Accepted(lens) && !Complete(lens) { LoneOne(lens); }
    if s: nat :| OneSymbol(lens, s) {
      OneCount(lens, s);
      OnesKraft(lens);
      Pow2Values();
    }
  }

  lemma {:induction false} SameLengths(start: seq<byte>, inp: seq<byte>, t: nat, bl: seq<nat>, lens: seq<nat>, pos: nat,
          hist: seq<byte>)
    requires Windowed(start) && Table(t) && |bl| == 19 && Lengths(bl) && Accepted(bl)
    requires |lens| <= Total(t) && Lengths(lens) && LoneLens(bl, lens)
    ensures SamePart(start, DynLengths(inp, Theirs(start), t, bl, lens, pos, hist),
      DynLengths(inp, Ours(start), t, bl, lens, pos, start + hist))
    decreases Total(t) - |lens|
  {
    hide DynCodes, LenSymbol, Accepted, Peek, Complete, Lone;
    var c := LenSymbol(bl, inp, pos);
    var p := pos + bl[c];
    if !Complete(bl) { LoneIs(bl, inp, pos); }
    if |lens| == Total(t) {
      SameCodes(start, inp, t, lens, pos, hist);
    } else if Decode(bl, inp, pos) < 0 {
      CompleteOrLone(bl, inp, pos);
      LoneLengths(Ours(start), inp, t, bl, lens, Lone(bl), if Lone(bl) < 16 then Lone(bl) else 0, pos, start + hist);
    } else if c < 16 {
      if p <= Bits8(inp) { SameLengths(start, inp, t, bl, lens + [c], p, hist); }
    } else {
      var i := RunExtra(c);
      var j := RunBase(c) + Peek(inp, p, i);
      if p + i <= Bits8(inp) && |lens| + j <= Total(t) && (c != 16 || |lens| > 0) {
        var x := if c == 16 then lens[|lens| - 1] else 0;
        SameLengths(start, inp, t, bl, lens + Repeat(j, x), p + i, hist);
      }
    }
  }

  lemma {:induction false} SameOrder(start: seq<byte>, inp: seq<byte>, t: nat, i: nat, bl: seq<nat>, pos: nat,
          hist: seq<byte>)
    requires Windowed(start) && Table(t) && i <= HCLen(t) && |bl| == 19 && forall j :: 0 <= j < 19 ==> bl[j] <= 7
    ensures SamePart(start, DynOrder(inp, Theirs(start), t, i, bl, pos, hist),
      DynOrder(inp, Ours(start), t, i, bl, pos, start + hist))
    decreases 19 - i
  {
    hide DynLengths, Accepted, Peek;
    PeekBound(inp, pos, 3);
    Pow2Values();
    if i < HCLen(t) {
      if pos + 3 <= Bits8(inp) { SameOrder(start, inp, t, i + 1, bl[BORDER[i] := Peek(inp, pos, 3)], pos + 3, hist); }
    } else if Accepted(bl) {
      SameLengths(start, inp, t, bl, [], pos, hist);
    }
  }

  lemma SameBlock(start: seq<byte>, inp: seq<byte>, kind: nat, pos: nat, hist: seq<byte>)
    requires Windowed(start)
    ensures SamePart(start, Block(inp, Theirs(start), kind, pos, hist),
      Block(inp, Ours(start), kind, pos, start + hist))
  {
    hide Stored, Body, DynOrder, Peek, FixedLiteral, FixedDistance;
    if kind == 0 {
      var at := NextByte(pos);
      if at + 4 <= |inp| { SameStored(start, inp, Word(inp[at], inp[at + 1]), at + 4, hist); }
    } else if kind == 1 {
      SameBody(start, inp, FixedLiteral(), FixedDistance(), pos, hist);
    } else if kind == 2 {
      var t := Peek(inp, pos, 14);
      PeekBound(inp, pos, 14);
      Pow2Values();
      if HLit(t) <= 29 && HDist(t) <= 29 { SameOrder(start, inp, t, 0, seq(19, _ => 0), pos + 14, hist); }
    }
  }

  /** The verdict is the same, or the format has found an error where the decompressor
      waits for more. */
  predicate SameStop(s: Stop, r: Stop) { r == s || (s.Bad? && r.Truncated?) }

  ghost predicate SameOutcome(start: seq<byte>, s: Outcome, r: Outcome) {
    if s.stop.BadDistance? then start + s.out <= r.out else r.out == start + s.out && SameStop(s.stop, r.stop)
  }

  /** A stream of blocks without far distances means the same to both. */
  lemma {:induction false} SameBlocks(start: seq<byte>, inp: seq<byte>, pos: nat, hist: seq<byte>)
    requires Windowed(start)
    ensures SameOutcome(start, Blocks(inp, Theirs(start), pos, hist), Blocks(inp, Ours(start), pos, start + hist))
    decreases if pos <= Bits8(inp) then Bits8(inp) - pos + 2 else 1
  {
    hide Block, Peek;
    if pos + 3 <= Bits8(inp) {
      var kind := Peek(inp, pos + 1, 2);
      SameBlock(start, inp, kind, pos + 3, hist);
      var s := Block(inp, Theirs(start), kind, pos + 3, hist);
      if s.Done? { SameBlocks(start, inp, s.pos, s.hist); }
    }
  }

  /** They agree on the output and the verdict of a stream if and only if no distance
      in it reaches too far; where the format has found an error, the decompressor
      may still be waiting for more of a block that it will refuse. */
  lemma Agree(start: seq<byte>, inp: seq<byte>, pos: nat, hist: seq<byte>)
    requires Windowed(start)
    ensures var s, r := Blocks(inp, Theirs(start), pos, hist), Blocks(inp, Ours(start), pos, start + hist);
      && (r.out == start + s.out && SameStop(s.stop, r.stop) <==> !s.stop.BadDistance?)
      && start + s.out <= r.out
      && (!r.stop.Truncated? ==> (r == Outcome(start + s.out, s.stop) <==> !s.stop.BadDistance?))
  {
    hide Blocks;
    SameBlocks(start, inp, pos, hist);
  }

  /** What the stream of a decompressor means by the format. */
  ghost function Meaning(z: Inflate.Inflate): Outcome {
    Blocks(z.Inp(), Theirs(z.win.start), Inflate.Start(z.nowrap), [])
  }

  /** The four bytes after the blocks are the checksum of the output. */
  ghost predicate CheckMatches(inp: seq<byte>, o: Outcome)
    requires o.stop.End?
  {
    var at := NextByte(o.stop.pos);
    at + 4 <= |inp| && Inflate.BigEndian(inp, at, 4) == Checksum(START, o.out).Word()
  }

  lemma TailMeans(inp: seq<byte>, nowrap: bool, start: seq<byte>, s: Outcome)
    ensures var o := Outcome(start + s.out, s.stop);
      var r := Inflate.Tail(inp, nowrap, start, o);
      && (r.ending.Finished? <==> s.stop.End? && (nowrap || CheckMatches(inp, s)))
      && (r.ending.Corrupt? ==> s.stop.Bad? || s.stop.BadDistance? || (s.stop.End? && !nowrap && !CheckMatches(inp, s)))
      && !r.ending.NeedDict?
  {
    hide Checksum, Inflate.BigEndian, NextByte;
    assert (start + s.out)[|start|..] == s.out;
  }

  /** The theorem for callers.  Unless a distance reaches too far: what has been
      delivered, and what is pending, is a prefix of what the format says; the
      decompressor finishes only at the end of a right stream, with all of it
      delivered; and it fails only if the format or the check is violated or
      a table outgrew its space. */
  lemma Decompresses(z: Inflate.Inflate)
    requires z.Valid() && Inflate.InData(z.Inp(), z.nowrap, z.wbits) && !Meaning(z).stop.BadDistance?
    ensures z.win.start + z.win.out <= z.win.hist <= z.win.start + Meaning(z).out
    ensures z.win.out <= Meaning(z).out
    ensures z.mode == Inflate.I_DONE ==>
      z.win.out == Meaning(z).out && Meaning(z).stop.End? && (z.nowrap || CheckMatches(z.Inp(), Meaning(z)))
    ensures z.mode == Inflate.I_BAD ==>
      || z.Crowded()
      || Meaning(z).stop.Bad?
      || (Meaning(z).stop.End? && !z.nowrap && !CheckMatches(z.Inp(), Meaning(z)))
  {
    hide Blocks, Inflate.Inflate.Valid, Inflate.InData, Inflate.Stream, Inflate.Tail, CheckMatches,
      InfUtil.BitInput.Valid, InfUtil.SlidingWindow.Valid;
    z.Delivers();
    var start := z.win.start;
    SameBlocks(start, z.Inp(), Inflate.Start(z.nowrap), []);
    assert start + [] == start;
    Inflate.StreamData(z.Inp(), z.nowrap, z.wbits, start);
    TailMeans(z.Inp(), z.nowrap, start,
      Outcome(Meaning(z).out, Blocks(z.Inp(), Ours(start), Inflate.Start(z.nowrap), start).stop));
    Within(start, z.win.out, Meaning(z).out);
  }

  lemma Within(start: seq<byte>, x: seq<byte>, y: seq<byte>)
    requires start + x <= start + y
    ensures x <= y && (start + x == start + y ==> x == y)
  {
    assert (start + x)[|start|..] == x && (start + y)[|start|..] == y;
  }

  // ----- a stream on which they differ -----

  /** One fixed block: a string of 3 bytes from 1 byte back, then its end. */
  const FAR: seq<byte> := [3, 2, 0]

  lemma ShrZero(n: nat)
    ensures Shr(0, n) == 0
  {
    LowSmall(0, n);
  }

  lemma FarBits(i: nat)
    requires i < 24
    ensures Bit(FAR, i) == if i == 0 || i == 1 || i == 9 then 1 else 0
  {
    ShrZero(i % 8);
    assert Shr(3, 0) == 3 && Shr(3, 1) == 1 && Shr(1, 0) == 1;
    assert Shr(2, 0) == 2 && Shr(2, 1) == 1;
    if i % 8 >= 2 {
      Pow2Mono(2, i % 8);
      Pow2Values();
      LowSmall(3, i % 8);
      LowSmall(2, i % 8);
    }
  }

  lemma {:induction false} ZeroBits(pos: nat, n: nat)
    requires forall i :: pos <= i < pos + n ==> Bit(FAR, i) == 0
    ensures PeekMsb(FAR, pos, n) == 0
    decreases n
  {
    if n > 0 { ZeroBits(pos, n - 1); }
  }

  lemma AllFarBits()
    ensures forall i: nat :: i < 24 ==> Bit(FAR, i) == if i == 0 || i == 1 || i == 9 then 1 else 0
  {
    forall i: nat | i < 24
      ensures Bit(FAR, i) == if i == 0 || i == 1 || i == 9 then 1 else 0
    {
      FarBits(i);
    }
  }

  /** The codes of the string, its distance and the end of the block. */
  lemma FarCodes()
    ensures PeekMsb(FAR, 3, 7) == 1 && PeekMsb(FAR, 10, 5) == 0 && PeekMsb(FAR, 15, 7) == 0
    ensures Peek(FAR, 0, 1) == 1 && Peek(FAR, 1, 2) == 1
  {
    hide Bit;
    AllFarBits();
    ZeroBits(3, 6);
    ZeroBits(10, 5);
    ZeroBits(15, 7);
    assert PeekMsb(FAR, 3, 7) == 2 * PeekMsb(FAR, 3, 6) + Bit(FAR, 9);
    assert Peek(FAR, 0, 1) == Bit(FAR, 0) + 2 * Peek(FAR, 1, 0);
    assert Peek(FAR, 1, 2) == Bit(FAR, 1) + 2 * Peek(FAR, 2, 1);
    assert Peek(FAR, 2, 1) == Bit(FAR, 2) + 2 * Peek(FAR, 3, 0);
  }

  lemma {:induction false} NoShorter(lens: seq<nat>, L: nat)
    requires forall s :: 0 <= s < |lens| ==> lens[s] >= L
    ensures NextCode(lens, L) == 0
    decreases L
  {
    if L > 1 {
      NoShorter(lens, L - 1);
      CountZero(lens, L - 1);
    }
  }

  lemma FixedCodes()
    ensures Code(FixedLiteral(), 256) == 0 && Code(FixedLiteral(), 257) == 1 && Code(FixedDistance(), 0) == 0
    ensures FixedLiteral()[256] == 7 && FixedLiteral()[257] == 7 && FixedDistance()[0] == 5
  {
    var l, d := FixedLiteral(), FixedDistance();
    NoShorter(l, 7);
    NoShorter(d, 5);
    CountZero(l[..256], 7);
    assert l[..257][..256] == l[..256];
    assert Count(l[..257], 7) == Count(l[..256], 7) + 1;
    assert Count(d[..0], 5) == 0;
  }

  /** What both readings make of that stream. */
  lemma FarDecodes()
    ensures Decode(FixedLiteral(), FAR, 3) == 257 && Decode(FixedDistance(), FAR, 10) == 0
      && Decode(FixedLiteral(), FAR, 15) == 256
  {
    hide Code, PeekMsb, Peek, Kraft, Decode;
    FixedCodes();
    FarCodes();
    FixedLiteralComplete();
    FixedDistanceIncomplete();
    DecodeUnique(FixedLiteral(), 257, FAR, 3);
    DecodeUnique(FixedDistance(), 0, FAR, 10);
    DecodeUnique(FixedLiteral(), 256, FAR, 15);
  }

  lemma FirstTables()
    ensures LengthBits(257) == 0 && LengthBase(257) == 3 && DistanceBits(0) == 0 && DistanceBase(0) == 1
  {
  }

  lemma FarSymbols(start: seq<byte>)
    requires Windowed(start)
    ensures Symbol(FAR, Theirs(start), FixedLiteral(), FixedDistance(), 3, []) == WrongDistance
    ensures var h := Copy(Ours(start), 1, 3, start);
      && Symbol(FAR, Ours(start), FixedLiteral(), FixedDistance(), 3, start) == More(15, h)
      && Symbol(FAR, Ours(start), FixedLiteral(), FixedDistance(), 15, h) == EndOfBlock(22)
  {
    hide Decode, Copy, Symbol, FixedLiteral, FixedDistance;
    FarString(start);
    FarEnd(start, Copy(Ours(start), 1, 3, start));
  }

  lemma FarString(start: seq<byte>)
    requires Windowed(start)
    ensures Symbol(FAR, Theirs(start), FixedLiteral(), FixedDistance(), 3, []) == WrongDistance
    ensures Symbol(FAR, Ours(start), FixedLiteral(), FixedDistance(), 3, start)
      == More(15, Copy(Ours(start), 1, 3, start))
  {
    hide Decode, Copy, LengthBits, LengthBase, DistanceBits, DistanceBase, Code;
    FarDecodes();
    FirstTables();
    FixedCodes();
    assert Peek(FAR, 10, 0) == 0 && Peek(FAR, 15, 0) == 0;
  }

  lemma FarEnd(start: seq<byte>, h: seq<byte>)
    requires ReachOK(Ours(start), h)
    ensures Codes2(FixedLiteral(), FixedDistance())
    ensures Symbol(FAR, Ours(start), FixedLiteral(), FixedDistance(), 15, h) == EndOfBlock(22)
  {
    hide Decode, Copy, LengthBits, LengthBase, DistanceBits, DistanceBase, Code;
    FarDecodes();
    FixedCodes();
  }

  /** The format rejects it; the decompressor repeats the last byte of whatever
      its window held, and finishes. */
  lemma Differ(start: seq<byte>)
    requires Windowed(start)
    ensures Blocks(FAR, Theirs(start), 0, []) == Outcome([], BadDistance)
    ensures Blocks(FAR, Ours(start), 0, start) == Outcome(Copy(Ours(start), 1, 3, start), End(22))
  {
    hide Symbol, Copy, Peek, FixedLiteral, FixedDistance;
    FarCodes();
    FarSymbols(start);
    var ll, dl, h := FixedLiteral(), FixedDistance(), Copy(Ours(start), 1, 3, start);
    assert Body(FAR, Ours(start), ll, dl, 15, h) == Done(22, h);
    assert Block(FAR, Ours(start), 1, 3, start) == Done(22, h);
    assert Block(FAR, Theirs(start), 1, 3, []) == FailDistance([]);
  }

  // ----- a stream in which the error shows later -----

  /** The beginning of a dynamic block whose code-length code has one symbol, of one
      bit, and then a bit that is not its code. */
  const LATE: seq<byte> := [5, 0, 0, 36]

  lemma BitsOfFive(k: nat)
    requires k < 8
    ensures Shr(5, k) % 2 == if k == 0 || k == 2 then 1 else 0
  {
    assert Shr(5, 0) == 5 && Shr(5, 1) == 2 && Shr(2, 1) == 1;
    ShrAdd(5, 1, 1);
    if k >= 3 {
      Pow2Mono(3, k);
      Pow2Values();
      LowSmall(5, k);
    }
  }

  lemma BitsOfThirtySix(k: nat)
    requires k < 8
    ensures Shr(36, k) % 2 == if k == 2 || k == 5 then 1 else 0
  {
    assert Shr(36, 0) == 36 && Shr(36, 1) == 18 && Shr(18, 1) == 9 && Shr(9, 1) == 4 && Shr(4, 1) == 2
      && Shr(2, 1) == 1;
    ShrAdd(36, 1, 1);
    ShrAdd(36, 2, 1);
    ShrAdd(36, 3, 1);
    ShrAdd(36, 4, 1);
    if k >= 6 {
      Pow2Mono(6, k);
      Pow2Values();
      LowSmall(36, k);
    }
  }

  lemma LateBits(i: nat)
    requires i < 32
    ensures Bit(LATE, i) == if i == 0 || i == 2 || i == 26 || i == 29 then 1 else 0
  {
    hide Shr;
    ShrZero(i % 8);
    BitsOfFive(i % 8);
    BitsOfThirtySix(i % 8);
  }

  lemma {:induction false} ZeroPeek(pos: nat, n: nat)
    requires forall i :: pos <= i < pos + n ==> Bit(LATE, i) == 0
    ensures Peek(LATE, pos, n) == 0
    decreases n
  {
    if n > 0 { ZeroPeek(pos + 1, n - 1); }
  }

  lemma AllLateBits()
    ensures forall i: nat :: i < 32 ==> Bit(LATE, i) == if i == 0 || i == 2 || i == 26 || i == 29 then 1 else 0
  {
    forall i: nat | i < 32
      ensures Bit(LATE, i) == if i == 0 || i == 2 || i == 26 || i == 29 then 1 else 0
    {
      LateBits(i);
    }
  }

  lemma LateHeader()
    ensures Peek(LATE, 0, 1) == 1 && Peek(LATE, 1, 2) == 2 && Peek(LATE, 3, 14) == 0
    ensures Peek(LATE, 17, 3) == 0 && Peek(LATE, 20, 3) == 0 && Peek(LATE, 23, 3) == 0 && Peek(LATE, 26, 3) == 1
    ensures PeekMsb(LATE, 29, 1) == 1
  {
    hide Bit;
    AllLateBits();
    ZeroPeek(3, 14);
    ZeroPeek(17, 3);
    ZeroPeek(20, 3);
    ZeroPeek(23, 3);
    ZeroPeek(27, 2);
    assert Peek(LATE, 0, 1) == Bit(LATE, 0) + 2 * Peek(LATE, 1, 0);
    assert Peek(LATE, 2, 1) == Bit(LATE, 2) + 2 * Peek(LATE, 3, 0);
    assert Peek(LATE, 1, 2) == Bit(LATE, 1) + 2 * Peek(LATE, 2, 1);
    assert Peek(LATE, 26, 3) == Bit(LATE, 26) + 2 * Peek(LATE, 27, 2);
    assert PeekMsb(LATE, 29, 1) == 2 * PeekMsb(LATE, 29, 0) + Bit(LATE, 29);
  }

  /** The lengths of its code-length code: symbol 0 alone, with one bit. */
  function LateLengths(): seq<nat> { seq(19, i => if i == 0 then 1 else 0) }

  lemma {:induction false} CountLate(n: nat)
    requires n <= 19
    ensures Count(LateLengths()[..n], 1) == if n > 0 then 1 else 0
    ensures Kraft(LateLengths()[..n]) == if n > 0 then Pow2(14) else 0
  {
    var l := LateLengths();
    if n > 0 {
      CountLate(n - 1);
      assert l[..n][..n - 1] == l[..n - 1];
    }
  }

  lemma LateAccepted()
    ensures Accepted(LateLengths()) && !Complete(LateLengths()) && Lengths(LateLengths()) && |LateLengths()| == 19
    ensures Lone(LateLengths()) == 0
  {
    var l := LateLengths();
    CountLate(19);
    assert l[..19] == l && l[0] == 1;
    Pow2Values();
    NthRank(l, 0);
    assert l[..0] == [];
  }

  lemma LateCode()
    ensures Accepted(LateLengths()) && !Complete(LateLengths()) && Lengths(LateLengths()) && |LateLengths()| == 19
    ensures Lone(LateLengths()) == 0 && forall pos: nat :: LenSymbol(LateLengths(), LATE, pos) == 0
    ensures Decode(LateLengths(), LATE, 29) < 0
  {
    hide Accepted, Complete, Lone, Kraft, LenSymbol, Bit, PeekMsb;
    LateAccepted();
    LateHeader();
    var l := LateLengths();
    forall pos: nat ensures LenSymbol(l, LATE, pos) == 0 { LoneIs(l, LATE, pos); }
    assert l[..0] == [] && Code(l, 0) == 0;
    forall s: nat ensures !Matches(l, s, LATE, 29) {
      if s < |l| && l[s] > 0 { assert s == 0; }
    }
  }

  lemma LateOrder(w: Reach, hist: seq<byte>)
    requires ReachOK(w, hist)
    ensures |LateLengths()| == 19 && Lengths(LateLengths()) && Accepted(LateLengths())
    ensures DynTable(LATE, w, 3, hist) == DynLengths(LATE, w, 0, LateLengths(), [], 29, hist)
  {
    hide Peek, DynLengths, Accepted, LateLengths;
    LateHeader();
    LateCode();
    var z := seq(19, _ => 0);
    OrderStep(w, 3, z, 26, hist);
    OrderStep(w, 2, z, 23, hist);
    OrderStep(w, 1, z, 20, hist);
    OrderStep(w, 0, z, 17, hist);
    LateIs(z);
  }

  lemma LateIs(z: seq<nat>)
    requires z == seq(19, _ => 0)
    ensures z[BORDER[0] := 0] == z && z[BORDER[1] := 0] == z && z[BORDER[2] := 0] == z
      && z[BORDER[3] := 1] == LateLengths()
  {
  }

  lemma OrderStep(w: Reach, i: nat, bl: seq<nat>, pos: nat, hist: seq<byte>)
    requires i < 4 && |bl| == 19 && ReachOK(w, hist) && pos + 3 <= 32 && forall j :: 0 <= j < 19 ==> bl[j] <= 7
    ensures Peek(LATE, pos, 3) < 8
    ensures DynOrder(LATE, w, 0, i, bl, pos, hist)
      == DynOrder(LATE, w, 0, i + 1, bl[BORDER[i] := Peek(LATE, pos, 3)], pos + 3, hist)
  {
    hide DynLengths, Accepted, Peek;
    PeekBound(LATE, pos, 3);
    Pow2Values();
  }

  /** The format rejects the stream at once; the decompressor waits for more. */
  lemma DifferLate(start: seq<byte>)
    requires Windowed(start)
    ensures Blocks(LATE, Theirs(start), 0, []) == Outcome([], Bad)
    ensures Blocks(LATE, Ours(start), 0, start) == Outcome(start, Truncated)
  {
    hide Peek, DynTable, DynLengths, Accepted, LateLengths, LenSymbol, Decode, Complete, Lone;
    LateHeader();
    LateCode();
    LateOrder(Theirs(start), []);
    LateOrder(Ours(start), start);
    LateTheirs(start);
    LateOurs(start, 29, []);
    assert Block(LATE, Theirs(start), 2, 3, []) == Fail([]);
    assert Block(LATE, Ours(start), 2, 3, start) == Cut(start);
  }

  lemma LateTheirs(start: seq<byte>)
    requires Windowed(start)
    ensures LateLengths() != [] && |LateLengths()| == 19 && Lengths(LateLengths()) && Accepted(LateLengths())
    ensures DynLengths(LATE, Theirs(start), 0, LateLengths(), [], 29, []) == Fail([])
  {
    hide LenSymbol, Accepted, Decode, DynCodes;
    LateCode();
  }

  lemma {:induction false} LateOurs(start: seq<byte>, pos: nat, lens: seq<nat>)
    requires Windowed(start) && 29 <= pos <= 32 && |lens| == pos - 29 && Lengths(lens)
    ensures |LateLengths()| == 19 && Lengths(LateLengths()) && Accepted(LateLengths())
    ensures DynLengths(LATE, Ours(start), 0, LateLengths(), lens, pos, start) == Cut(start)
    decreases 32 - pos
  {
    hide LenSymbol, Accepted, Decode, DynCodes, DynRun;
    LateCode();
    assert LateLengths()[0] == 1;
    assert LenSymbol(LateLengths(), LATE, pos) == 0;
    if pos < 32 { LateOurs(start, pos + 1, lens + [0]); }
  }
}
