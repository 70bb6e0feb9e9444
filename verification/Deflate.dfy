/** A functional decoder for the DEFLATE format (section 3.2 of RFC 1951) over
    a complete input: what a stream means, independent of tables, bit buffers,
    windows and of how input and output are split. */
module Deflate {
  import opened Bits
  import opened Canonical
  import opened Trees
  import opened InfUtil

  /** How far back a distance reaches.  `Strict(limit)` is the format itself:
      distances beyond the output so far, or beyond the window limit, are
      errors.  `Ring(size)` is what the decompressor does: every distance is
      taken modulo the size of its window, whatever the window holds. */
  datatype Reach = Strict(limit: nat) | Ring(size: nat)

  ghost predicate ReachOK(w: Reach, hist: seq<byte>) {
    w.Ring? ==> 0 < w.size <= |hist|
  }

  ghost predicate InReach(w: Reach, dist: nat, hist: seq<byte>) {
    w.Strict? ==> dist <= |hist| && dist <= w.limit
  }

  ghost function Source(w: Reach, dist: nat, hist: seq<byte>): (d: nat)
    requires 0 < dist && ReachOK(w, hist) && InReach(w, dist, hist)
    ensures 0 < d <= |hist|
  {
    if w.Strict? then dist else Back(dist, w.size)
  }

  /** A string of len bytes starting dist bytes back; it may overlap itself. */
  ghost function Copy(w: Reach, dist: nat, len: nat, hist: seq<byte>): (r: seq<byte>)
    requires 0 < dist && ReachOK(w, hist) && InReach(w, dist, hist)
    ensures |r| == |hist| + len && hist <= r
    decreases len
  {
    if len == 0 then hist
    else Copy(w, dist, len - 1, hist + [hist[|hist| - Source(w, dist, hist)]])
  }

  // ----- one literal, string or end of block -----

  datatype Step = More(pos: nat, hist: seq<byte>) | EndOfBlock(pos: nat) | Wrong | WrongDistance | Short

  function Bits8(inp: seq<byte>): nat { 8 * |inp| }

  /** Extra bits of a distance, then the copy. */
  ghost function DistanceExtra(inp: seq<byte>, w: Reach, len: nat, get: nat, base: nat, pos: nat,
          hist: seq<byte>): (r: Step)
    requires 0 < base && ReachOK(w, hist)
    ensures r.More? ==> pos <= r.pos <= Bits8(inp) && hist <= r.hist && !r.EndOfBlock?
    ensures w.Ring? ==> !r.WrongDistance?
  {
    var dist := base + Peek(inp, pos, get);
    if pos + get > Bits8(inp) then Short
    else if !InReach(w, dist, hist) then WrongDistance
    else More(pos + get, Copy(w, dist, len, hist))
  }

  /** The distance of a string of known length. */
  ghost function Distance(inp: seq<byte>, w: Reach, dl: seq<nat>, len: nat, pos: nat, hist: seq<byte>): (r: Step)
    requires |dl| <= 30 && ReachOK(w, hist)
    ensures r.More? ==> pos <= r.pos <= Bits8(inp) && hist <= r.hist
    ensures !r.EndOfBlock?
    ensures w.Ring? ==> !r.WrongDistance?
  {
    var s := Decode(dl, inp, pos);
    if s < 0 then Wrong
    else if pos + dl[s] > Bits8(inp) then Short
    else DistanceExtra(inp, w, len, DistanceBits(s), DistanceBase(s), pos + dl[s], hist)
  }

  /** Extra bits of a length, then the distance. */
  ghost function LengthExtra(inp: seq<byte>, w: Reach, dl: seq<nat>, get: nat, base: nat, pos: nat,
          hist: seq<byte>): (r: Step)
    requires |dl| <= 30 && ReachOK(w, hist)
    ensures r.More? ==> pos <= r.pos <= Bits8(inp) && hist <= r.hist
    ensures !r.EndOfBlock?
    ensures w.Ring? ==> !r.WrongDistance?
  {
    if pos + get > Bits8(inp) then Short
    else Distance(inp, w, dl, base + Peek(inp, pos, get), pos + get, hist)
  }

  ghost predicate Codes2(ll: seq<nat>, dl: seq<nat>) {
    |ll| <= 288 && |dl| <= 30
  }

  /** One literal/length symbol and everything that belongs to it. */
  ghost function Symbol(inp: seq<byte>, w: Reach, ll: seq<nat>, dl: seq<nat>, pos: nat, hist: seq<byte>): (r: Step)
    requires Codes2(ll, dl) && ReachOK(w, hist)
    ensures r.More? ==> pos < r.pos <= Bits8(inp) && hist <= r.hist
    ensures r.EndOfBlock? ==> pos < r.pos <= Bits8(inp)
    ensures w.Ring? ==> !r.WrongDistance?
  {
    var s := Decode(ll, inp, pos);
    if s < 0 || s > 285 then Wrong
    else if pos + ll[s] > Bits8(inp) then Short
    else if s < 256 then More(pos + ll[s], hist + [s])
    else if s == 256 then EndOfBlock(pos + ll[s])
    else LengthExtra(inp, w, dl, LengthBits(s), LengthBase(s), pos + ll[s], hist)
  }

  /** n whole symbols, if none of them is the last or wrong. */
  ghost function Symbols(n: nat, inp: seq<byte>, w: Reach, ll: seq<nat>, dl: seq<nat>, pos: nat,
          hist: seq<byte>): (r: Step)
    requires Codes2(ll, dl) && ReachOK(w, hist)
    ensures r.More? ==> pos <= r.pos && hist <= r.hist
  {
    if n == 0 then More(pos, hist)
    else
      var s := Symbol(inp, w, ll, dl, pos, hist);
      if s.More? then Symbols(n - 1, inp, w, ll, dl, s.pos, s.hist) else s
  }

  // ----- the body of a block -----

  datatype Part = Done(pos: nat,
          hist: seq<byte>) | Fail(hist: seq<byte>) | FailDistance(hist: seq<byte>) | Cut(hist: seq<byte>)

  /** Symbols up to and including the end of the block. */
  ghost function Body(inp: seq<byte>, w: Reach, ll: seq<nat>, dl: seq<nat>, pos: nat, hist: seq<byte>): (r: Part)
    requires Codes2(ll, dl) && ReachOK(w, hist)
    ensures hist <= r.hist && (r.Done? ==> pos < r.pos <= Bits8(inp))
    ensures w.Ring? ==> !r.FailDistance?
    decreases if pos <= Bits8(inp) then Bits8(inp) - pos + 2 else 1, 0
  {
    After(inp, w, ll, dl, Symbol(inp, w, ll, dl, pos, hist), hist)
  }

  /** What follows a symbol. */
  ghost function After(inp: seq<byte>, w: Reach, ll: seq<nat>, dl: seq<nat>, s: Step, hist: seq<byte>): (r: Part)
    requires Codes2(ll, dl) && ReachOK(w, hist)
    requires s.More? ==> s.pos <= Bits8(inp) && hist <= s.hist
    requires s.EndOfBlock? ==> s.pos <= Bits8(inp)
    ensures hist <= r.hist
    ensures r.Done? ==> (s.More? || s.EndOfBlock?) && s.pos <= r.pos <= Bits8(inp)
    ensures w.Ring? && !s.WrongDistance? ==> !r.FailDistance?
    decreases if s.More? then Bits8(inp) - s.pos + 2 else 0, 1
  {
    match s
    case More(p, h) => Body(inp, w, ll, dl, p, h)
    case EndOfBlock(p) => Done(p, hist)
    case Wrong => Fail(hist)
    case WrongDistance => FailDistance(hist)
    case Short => Cut(hist)
  }

  /** One symbol more. */
  lemma {:induction false} SymbolsMore(n: nat, inp: seq<byte>, w: Reach, ll: seq<nat>, dl: seq<nat>, pos: nat,
          hist: seq<byte>)
    requires Codes2(ll, dl) && ReachOK(w, hist) && Symbols(n, inp, w, ll, dl, pos, hist).More?
    ensures var s := Symbols(n, inp, w, ll, dl, pos, hist);
      Symbols(n + 1, inp, w, ll, dl, pos, hist) == Symbol(inp, w, ll, dl, s.pos, s.hist)
  {
    if n > 0 {
      var s := Symbol(inp, w, ll, dl, pos, hist);
      SymbolsMore(n - 1, inp, w, ll, dl, s.pos, s.hist);
    } else {
      assert Symbols(1, inp, w, ll, dl, pos, hist) == Symbol(inp, w, ll, dl, pos, hist);
    }
  }

  /** A block does not change by looking past its first n symbols. */
  lemma {:induction false} SymbolsBody(n: nat, inp: seq<byte>, w: Reach, ll: seq<nat>, dl: seq<nat>, pos: nat,
          hist: seq<byte>)
    requires Codes2(ll, dl) && ReachOK(w, hist) && Symbols(n, inp, w, ll, dl, pos, hist).More?
    ensures var s := Symbols(n, inp, w, ll, dl, pos, hist);
      Body(inp, w, ll, dl, pos, hist) == Body(inp, w, ll, dl, s.pos, s.hist)
  {
    if n > 0 {
      var s := Symbol(inp, w, ll, dl, pos, hist);
      SymbolsBody(n - 1, inp, w, ll, dl, s.pos, s.hist);
    }
  }

  /** `left` bytes taken as they are, from byte `at` on. */
  ghost function Stored(inp: seq<byte>, left: nat, at: nat, hist: seq<byte>): (r: Part)
    requires at <= |inp|
    ensures hist <= r.hist && (r.Done? ==> 8 * at <= r.pos <= Bits8(inp))
    ensures !r.FailDistance?
    decreases left
  {
    if left == 0 then Done(8 * at, hist)
    else if at == |inp| then Cut(hist)
    else Stored(inp, left - 1, at + 1, hist + [inp[at]])
  }

  function Word(lo: nat, hi: nat): nat { lo + 256 * hi }

  /** LEN and its complement, then the bytes (section 3.2.4). */
  ghost function StoredLength(inp: seq<byte>, at: nat, hist: seq<byte>): (r: Part)
    ensures hist <= r.hist && (r.Done? ==> 8 * at < r.pos <= Bits8(inp))
    ensures !r.FailDistance?
  {
    if at + 4 > |inp| then Cut(hist)
    else
      var len, nlen := Word(inp[at], inp[at + 1]), Word(inp[at + 2], inp[at + 3]);
      if len + nlen != 65535 then Fail(hist) else Stored(inp, len, at + 4, hist)
  }

  // ----- the codes of a dynamic block (section 3.2.7) -----

  const BORDER: seq<nat> := [16, 17, 18, 0, 8, 7, 9, 6, 10, 5, 11, 4, 12, 3, 13, 2, 14, 1, 15]

  function HLit(t: nat): nat { t % 32 }
  function HDist(t: nat): nat { t / 32 % 32 }
  function HCLen(t: nat): nat { 4 + t / 1024 }
  function Total(t: nat): nat { 258 + HLit(t) + HDist(t) }

  ghost function DynTable(inp: seq<byte>, w: Reach, pos: nat, hist: seq<byte>): (r: Part)
    requires ReachOK(w, hist)
    ensures hist <= r.hist && (r.Done? ==> pos < r.pos <= Bits8(inp))
    ensures w.Ring? ==> !r.FailDistance?
  {
    var t := Peek(inp, pos, 14);
    PeekBound(inp, pos, 14);
    Pow2Values();
    if pos + 14 > Bits8(inp) then Cut(hist)
    else if HLit(t) > 29 || HDist(t) > 29 then Fail(hist)
    else DynOrder(inp, w, t, 0, seq(19, _ => 0), pos + 14, hist)
  }

  ghost predicate Table(t: nat) { t < 16384 && HLit(t) <= 29 && HDist(t) <= 29 }

  /** Lengths of the code-length code, in their special order. */
  ghost function DynOrder(inp: seq<byte>, w: Reach, t: nat, i: nat, bl: seq<nat>, pos: nat, hist: seq<byte>): (r: Part)
    requires Table(t) && i <= HCLen(t) && |bl| == 19 && ReachOK(w, hist)
    requires forall j :: 0 <= j < 19 ==> bl[j] <= 7
    ensures hist <= r.hist && (r.Done? ==> pos < r.pos <= Bits8(inp))
    ensures w.Ring? ==> !r.FailDistance?
    decreases 19 - i
  {
    PeekBound(inp, pos, 3);
    Pow2Values();
    if i < HCLen(t) then
      if pos + 3 > Bits8(inp) then Cut(hist)
      else DynOrder(inp, w, t, i + 1, bl[BORDER[i] := Peek(inp, pos, 3)], pos + 3, hist)
    else if Accepted(bl) then DynLengths(inp, w, t, bl, [], pos, hist)
    else Fail(hist)
  }

  function RunExtra(c: nat): nat { if c == 18 then 7 else 2 + (if c == 17 then 1 else 0) }
  function RunBase(c: nat): nat { if c == 18 then 11 else 3 }

  /** Code lengths, run-length coded, of both codes as one list.  The format knows no
      symbol for a bit that is not the code of a lone symbol; the decompressor takes
      it for that symbol. */
  ghost function DynLengths(inp: seq<byte>, w: Reach, t: nat, bl: seq<nat>, lens: seq<nat>, pos: nat,
          hist: seq<byte>): (r: Part)
    requires Table(t) && |bl| == 19 && Lengths(bl) && Accepted(bl) && ReachOK(w, hist)
    requires |lens| <= Total(t) && Lengths(lens)
    ensures hist <= r.hist && (r.Done? ==> pos < r.pos <= Bits8(inp))
    ensures w.Ring? ==> !r.FailDistance?
    decreases Total(t) - |lens|
  {
    if |lens| == Total(t) then DynCodes(inp, w, t, lens, pos, hist)
    else if w.Strict? && Decode(bl, inp, pos) < 0 then Fail(hist)
    else
      var c := LenSymbol(bl, inp, pos);
      if c < 16 then
        if pos + bl[c] > Bits8(inp) then Cut(hist)
        else DynLengths(inp, w, t, bl, lens + [c], pos + bl[c], hist)
      else DynRun(inp, w, t, bl, lens, c, pos + bl[c], hist)
  }

  function Repeat(n: nat, x: nat): (r: seq<nat>)
    ensures |r| == n && forall i :: 0 <= i < n ==> r[i] == x
  {
    seq(n, _ => x)
  }

  /** A run: 16 repeats the length before it, 17 and 18 are zeros. */
  ghost function DynRun(inp: seq<byte>, w: Reach, t: nat, bl: seq<nat>, lens: seq<nat>, c: nat, pos: nat,
          hist: seq<byte>): (r: Part)
    requires Table(t) && |bl| == 19 && Lengths(bl) && Accepted(bl) && ReachOK(w, hist)
    requires |lens| < Total(t) && Lengths(lens) && 16 <= c <= 18
    ensures hist <= r.hist && (r.Done? ==> pos < r.pos <= Bits8(inp))
    ensures w.Ring? ==> !r.FailDistance?
    decreases Total(t) - |lens|, 0
  {
    var i := RunExtra(c);
    var j := RunBase(c) + Peek(inp, pos, i);
    if pos + i > Bits8(inp) then Cut(hist)
    else if |lens| + j > Total(t) || (c == 16 && |lens| == 0) then Fail(hist)
    else
      var x := if c == 16 then lens[|lens| - 1] else 0;
      DynLengths(inp, w, t, bl, lens + Repeat(j, x), pos + i, hist)
  }

  ghost function DynCodes(inp: seq<byte>, w: Reach, t: nat, lens: seq<nat>, pos: nat, hist: seq<byte>): (r: Part)
    requires Table(t) && |lens| == Total(t) && ReachOK(w, hist)
    ensures hist <= r.hist && (r.Done? ==> pos < r.pos <= Bits8(inp))
    ensures w.Ring? ==> !r.FailDistance?
  {
    var ll, dl := lens[..257 + HLit(t)], lens[257 + HLit(t)..];
    if Accepted(ll) && AcceptedDist(dl, |ll|) then Body(inp, w, ll, dl, pos, hist) else Fail(hist)
  }

  // ----- blocks -----

  /** The first byte not begun yet. */
  function NextByte(pos: nat): (at: nat)
    ensures pos <= 8 * at < pos + 8
  {
    (pos + 7) / 8
  }

  /** A block after its three header bits. */
  ghost function Block(inp: seq<byte>, w: Reach, kind: nat, pos: nat, hist: seq<byte>): (r: Part)
    requires ReachOK(w, hist)
    ensures hist <= r.hist && (r.Done? ==> pos < r.pos <= Bits8(inp))
    ensures w.Ring? ==> !r.FailDistance?
  {
    if kind == 0 then StoredLength(inp, NextByte(pos), hist)
    else if kind == 1 then Body(inp, w, FixedLiteral(), FixedDistance(), pos, hist)
    else if kind == 2 then DynTable(inp, w, pos, hist)
    else Fail(hist)
  }

  /** The end, an error, a distance that reaches too far, or more to come. */
  datatype Stop = End(pos: nat) | Bad | BadDistance | Truncated

  /** Everything a stream yields, and how it ends. */
  datatype Outcome = Outcome(out: seq<byte>, stop: Stop)

  ghost function Blocks(inp: seq<byte>, w: Reach, pos: nat, hist: seq<byte>): (r: Outcome)
    requires ReachOK(w, hist)
    ensures hist <= r.out
    ensures w.Ring? ==> r.stop != BadDistance
    decreases if pos <= Bits8(inp) then Bits8(inp) - pos + 2 else 1, 0
  {
    if pos + 3 > Bits8(inp) then Outcome(hist, Truncated)
    else NextBlock(inp, w, Peek(inp, pos, 1) == 1, Block(inp, w, Peek(inp, pos + 1, 2), pos + 3, hist))
  }

  /** What follows a block. */
  ghost function NextBlock(inp: seq<byte>, w: Reach, last: bool, b: Part): (r: Outcome)
    requires ReachOK(w, b.hist) && (b.Done? ==> b.pos <= Bits8(inp))
    ensures b.hist <= r.out
    ensures w.Ring? && !b.FailDistance? ==> r.stop != BadDistance
    decreases if b.Done? then Bits8(inp) - b.pos + 2 else 0, 1
  {
    match b
    case Done(p, h) => if last then Outcome(h, End(p)) else Blocks(inp, w, p, h)
    case Fail(h) => Outcome(h, Bad)
    case FailDistance(h) => Outcome(h, BadDistance)
    case Cut(h) => Outcome(h, Truncated)
  }
}
