/** The other direction: a stream that the format finishes has been written.  Reading it
    finds the symbols, the lengths and the blocks that it was put together from, so the
    format accepts nothing but what section 3.2 of RFC 1951 lets a writer send. */
module Reader {
  import opened Bits
  import opened Canonical
  import opened Trees
  import opened InfUtil
  import opened Deflate
  import opened Values
  import opened Writer

  // ----- literals and strings -----

  lemma ParseSymbol(inp: seq<byte>, pos: nat, lens: seq<nat>)
    requires Usable(lens) && Decode(lens, inp, pos) >= 0
    requires pos + lens[Decode(lens, inp, pos)] <= Bits8(inp)
    ensures HasSymbol(lens, Decode(lens, inp, pos)) && Has(inp, pos, Sym(lens, Decode(lens, inp, pos)))
  {
    hide Has, Sym, Usable;
    ReadsSymbol(inp, pos, lens, Decode(lens, inp, pos));
  }

  lemma ParseDistance(inp: seq<byte>, pos: nat, dl: seq<nat>, len: nat, hist: seq<byte>, limit: nat)
    returns (ds: nat, de: nat)
    requires |dl| <= 30 && Usable(dl) && Distance(inp, Strict(limit), dl, len, pos, hist).More?
    ensures ds < 30 && de < Pow2(DistanceExtraBits(ds)) && HasSymbol(dl, ds)
    ensures Has(inp, pos, Sym(dl, ds) + Value(DistanceExtraBits(ds), de))
    ensures FirstDistance(ds) + de <= |hist| && FirstDistance(ds) + de <= limit
    ensures Distance(inp, Strict(limit), dl, len, pos, hist)
         == More(pos + dl[ds] + DistanceExtraBits(ds), Copy(Strict(limit), FirstDistance(ds) + de, len, hist))
  {
    hide Has, Peek, Copy, Decode, DistanceBits, DistanceBase, FirstDistance, Pow2, Kraft, Sym;
    ParseSymbol(inp, pos, dl);
    ds := Decode(dl, inp, pos);
    DistanceTables(ds);
    de := Peek(inp, pos + dl[ds], DistanceBits(ds));
    PeekBound(inp, pos + dl[ds], DistanceBits(ds));
    HasValue(inp, pos + dl[ds], DistanceBits(ds), de);
    HasBoth(inp, pos, Sym(dl, ds), Value(DistanceBits(ds), de));
  }

  /** A symbol that is read is a token that was written. */
  lemma ParseToken(inp: seq<byte>, pos: nat, ll: seq<nat>, dl: seq<nat>, hist: seq<byte>, limit: nat)
    returns (t: Token)
    requires BothUsable(ll, dl) && Symbol(inp, Strict(limit), ll, dl, pos, hist).More?
    ensures var s := Symbol(inp, Strict(limit), ll, dl, pos, hist);
      && Tells(t, s.hist, |hist|, limit) && TokenCoded(t, ll, dl) && Has(inp, pos, TokenBits(t, ll, dl))
      && s.pos == pos + |TokenBits(t, ll, dl)| && |s.hist| == |hist| + Size(t)
  {
    hide Has, Peek, Distance, Decode, LengthBits, LengthBase, FirstLength, Repeats, Pow2, Kraft, Sym, Usable,
      FirstDistance;
    var c := Decode(ll, inp, pos);
    ParseSymbol(inp, pos, ll);
    if c < 256 {
      t := Lit(c);
    } else {
      var p, len := pos + ll[c], 0;
      LengthTables(c);
      var get := LengthBits(c);
      var le := Peek(inp, p, get);
      PeekBound(inp, p, get);
      HasValue(inp, p, get, le);
      len := FirstLength(c) + le;
      var ds, de := ParseDistance(inp, p + get, dl, len, hist, limit);
      t := Str(c, le, ds, de);
      var a, b := Sym(ll, c), Value(get, le);
      var d, e := Sym(dl, ds), Value(DistanceExtraBits(ds), de);
      HasBoth(inp, pos, a, b);
      HasBoth(inp, pos, a + b, d + e);
      assert TokenBits(t, ll, dl) == (a + b) + (d + e);
      ParseCopy(hist, len, FirstDistance(ds) + de, limit);
    }
  }

  lemma ParseCopy(hist: seq<byte>, len: nat, dist: nat, limit: nat)
    requires 0 < dist <= |hist| && dist <= limit
    ensures var data := Copy(Strict(limit), dist, len, hist);
      |data| == |hist| + len && Repeats(data, |hist|, len, dist)
  {
    hide Repeats;
    var data := Copy(Strict(limit), dist, len, hist);
    assert data[..|hist|] == hist && data[..|hist| + len] == data;
    CopyRepeats(data, |hist|, len, dist, limit);
  }

  lemma TellsLonger(t: Token, data: seq<byte>, more: seq<byte>, from: nat, limit: nat)
    requires Tells(t, data, from, limit) && data <= more
    ensures Tells(t, more, from, limit)
  {
  }

  /** The tokens of a block that is read to its end, for any data that begins with what
      the block yields. */
  lemma {:induction false} ParseTokens(inp: seq<byte>, pos: nat, ll: seq<nat>, dl: seq<nat>, hist: seq<byte>,
          data: seq<byte>, limit: nat)
    returns (ts: seq<Token>)
    requires BothUsable(ll, dl) && Body(inp, Strict(limit), ll, dl, pos, hist).Done?
    requires Body(inp, Strict(limit), ll, dl, pos, hist).hist <= data
    ensures var r := Body(inp, Strict(limit), ll, dl, pos, hist);
      && TellAll(ts, data, |hist|, |r.hist|, limit, ll, dl)
      && Has(inp, pos, TokensBits(ts, data, |hist|, |r.hist|, limit, ll, dl))
      && r.pos == pos + |TokensBits(ts, data, |hist|, |r.hist|, limit, ll, dl)|
    decreases if pos <= Bits8(inp) then Bits8(inp) - pos + 2 else 1
  {
    hide Has, Symbol, Tells, TokenCoded, Decode, Kraft, Sym, TokenBits, Usable, TokenOK, Size;
    var s := Symbol(inp, Strict(limit), ll, dl, pos, hist);
    if s.More? {
      var t := ParseToken(inp, pos, ll, dl, hist, limit);
      TellsLonger(t, s.hist, data, |hist|, limit);
      var more := ParseTokens(inp, s.pos, ll, dl, s.hist, data, limit);
      ts := [t] + more;
      assert ts[1..] == more && ts[0] == t;
      var r := Body(inp, Strict(limit), ll, dl, pos, hist);
      FirstToken(ts, data, |hist|, |r.hist|, limit, ll, dl);
      HasBoth(inp, pos, TokenBits(t, ll, dl), TokensBits(more, data, |s.hist|, |r.hist|, limit, ll, dl));
    } else {
      ts := [];
      ParseEnd(inp, pos, ll, dl, hist, limit);
      assert |hist| <= |data|;
    }
  }

  lemma FirstToken(ts: seq<Token>, data: seq<byte>, from: nat, to: nat, limit: nat, ll: seq<nat>, dl: seq<nat>)
    requires HasSymbol(ll, 256) && ts != [] && Tells(ts[0], data, from, limit) && TokenCoded(ts[0], ll, dl)
    requires TokenOK(ts[0]) && TellAll(ts[1..], data, from + Size(ts[0]), to, limit, ll, dl)
    ensures TellAll(ts, data, from, to, limit, ll, dl)
    ensures TokensBits(ts, data, from, to, limit, ll, dl)
         == TokenBits(ts[0], ll, dl) + TokensBits(ts[1..], data, from + Size(ts[0]), to, limit, ll, dl)
  {
  }

  lemma ParseEnd(inp: seq<byte>, pos: nat, ll: seq<nat>, dl: seq<nat>, hist: seq<byte>, limit: nat)
    requires BothUsable(ll, dl) && Symbol(inp, Strict(limit), ll, dl, pos, hist).EndOfBlock?
    ensures Has(inp, pos, Sym(ll, 256))
    ensures Symbol(inp, Strict(limit), ll, dl, pos, hist).pos == pos + |Sym(ll, 256)|
  {
    hide Has, Decode, Sym, LengthExtra, Kraft, LengthBits, LengthBase;
    ParseSymbol(inp, pos, ll);
  }

  // ----- stored blocks -----

  lemma {:induction false} ParsePlain(inp: seq<byte>, left: nat, at: nat, hist: seq<byte>)
    requires at <= |inp| && Stored(inp, left, at, hist).Done?
    ensures at + left <= |inp| && Has(inp, 8 * at, Plain(inp[at..at + left]))
    ensures Stored(inp, left, at, hist) == Done(8 * (at + left), hist + inp[at..at + left])
    decreases left
  {
    hide Has;
    if left == 0 {
      HasNone(inp, 8 * at);
      assert hist + inp[at..at] == hist;
    } else {
      ParsePlain(inp, left - 1, at + 1, hist + [inp[at]]);
      var d := inp[at..at + left];
      assert d[1..] == inp[at + 1..at + left] && hist + d == hist + [inp[at]] + d[1..];
      HasByte(inp, at, inp[at]);
      HasBoth(inp, 8 * at, Value(8, d[0]), Plain(d[1..]));
    }
  }

  /** The next n bits. */
  ghost function Taken(inp: seq<byte>, pos: nat, n: nat): (r: seq<bit>)
    ensures |r| == n && forall i :: 0 <= i < n ==> r[i] == Bit(inp, pos + i)
  {
    if n == 0 then [] else Taken(inp, pos, n - 1) + [Bit(inp, pos + n - 1)]
  }

  /** The bits up to the next byte. */
  ghost function PadAt(inp: seq<byte>, pos: nat): (r: seq<bit>)
    ensures PadOK(r, pos) && pos + |r| == 8 * NextByte(pos)
    ensures NextByte(pos) <= |inp| ==> Has(inp, pos, r)
  {
    Taken(inp, pos, 8 * NextByte(pos) - pos)
  }

  lemma ParseStored(inp: seq<byte>, pos: nat, hist: seq<byte>) returns (data: seq<byte>)
    requires StoredLength(inp, NextByte(pos), hist).Done?
    ensures |data| <= 65535 && Has(inp, pos, StoredBits(PadAt(inp, pos), data))
    ensures StoredLength(inp, NextByte(pos), hist)
         == Done(pos + |StoredBits(PadAt(inp, pos), data)|, hist + data)
  {
    hide Has, Stored, NextByte, Plain, Value;
    var at, pad := NextByte(pos), PadAt(inp, pos);
    var len := Word(inp[at], inp[at + 1]);
    ParsePlain(inp, len, at + 4, hist);
    data := inp[at + 4..at + 4 + len];
    HasStored(inp, pos, pad, data);
  }

  lemma HasStored(inp: seq<byte>, pos: nat, pad: seq<bit>, data: seq<byte>)
    requires pos + |pad| == 8 * NextByte(pos) && NextByte(pos) + 4 <= |inp|
    requires var at := NextByte(pos);
      Word(inp[at], inp[at + 1]) == |data| && Word(inp[at + 2], inp[at + 3]) == 65535 - |data|
    requires Has(inp, pos, pad) && Has(inp, 8 * (NextByte(pos) + 4), Plain(data)) && |data| <= 65535
    ensures Has(inp, pos, StoredBits(pad, data))
  {
    hide Has, Value, Plain, NextByte;
    var at := NextByte(pos);
    var a, b, c := Value(16, |data|), Value(16, 65535 - |data|), Plain(data);
    HasWord(inp, at, |data|);
    HasWord(inp, at + 2, 65535 - |data|);
    HasBoth(inp, 8 * at + 16, b, c);
    HasBoth(inp, 8 * at, a, b + c);
    HasBoth(inp, pos, pad, a + (b + c));
  }

  // ----- the header of a dynamic block -----

  lemma FitsOrder(t: nat)
    requires Table(t)
    ensures 4 <= HCLen(t) <= 19
  {
  }

  /** One more length is in its place. */
  lemma PlaceFilled(bl: seq<nat>, next: seq<nat>, i: nat, x: nat)
    requires |bl| == 19 && i < 19 && x <= 7 && next == bl[Order(i) := x]
    requires (forall j :: 0 <= j < 19 ==> bl[j] <= 7) && forall j: nat :: j < 19 && Place(j) >= i ==> bl[j] == 0
    ensures (forall j :: 0 <= j < 19 ==> next[j] <= 7) && forall j: nat :: j < 19 && Place(j) >= i + 1 ==> next[j] == 0
    ensures next[Order(i)] == x && forall j: nat :: j < 19 && Place(j) < i ==> next[j] == bl[j]
  {
    hide Order, Place;
    OrderPlace(i);
  }

  lemma OrderGoesOn(inp: seq<byte>, w: Reach, t: nat, i: nat, bl: seq<nat>, pos: nat, hist: seq<byte>)
    requires Table(t) && i <= HCLen(t) && |bl| == 19 && ReachOK(w, hist) && forall j :: 0 <= j < 19 ==> bl[j] <= 7
    requires DynOrder(inp, w, t, i, bl, pos, hist).Done?
    ensures i < HCLen(t) ==> pos + 3 <= Bits8(inp)
    ensures i == HCLen(t) ==> Accepted(bl) && pos <= Bits8(inp)
  {
    hide Peek, Accepted, DynLengths, HLit, HDist, HCLen;
  }

  /** What later lengths leave of one and of those before it. */
  lemma PlaceKept(bl: seq<nat>, next: seq<nat>, all: seq<nat>, i: nat, x: nat)
    requires |bl| == |next| == |all| == 19 && i < 19 && next == bl[Order(i) := x]
    requires forall j: nat :: j < 19 && Place(j) < i + 1 ==> all[j] == next[j]
    ensures all[Order(i)] == x && forall j: nat :: j < 19 && Place(j) < i ==> all[j] == bl[j]
  {
    hide Order, Place;
    OrderPlace(i);
  }

  lemma OrderBitsNext(inp: seq<byte>, pos: nat, bl: seq<nat>, i: nat, n: nat)
    requires |bl| == 19 && i < n <= 19 && pos + 3 <= Bits8(inp) && bl[Order(i)] == Peek(inp, pos, 3)
    requires Has(inp, pos + 3, OrderBits(bl, i + 1, n))
    ensures Has(inp, pos, OrderBits(bl, i, n))
  {
    hide Peek, Has, Order, Value;
    PeekBound(inp, pos, 3);
    HasValue(inp, pos, 3, bl[Order(i)]);
    HasBoth(inp, pos, Value(3, bl[Order(i)]), OrderBits(bl, i + 1, n));
  }

  lemma ShortMeans(bl: seq<nat>, n: nat)
    requires ShortCode(bl, n)
    ensures |bl| == 19 && 4 <= n <= 19 && Lengths(bl) && Usable(bl) && Accepted(bl)
  {
    hide Place;
  }

  /** The end of the lengths of the code-length code. */
  lemma OrderStops(inp: seq<byte>, w: Reach, t: nat, bl: seq<nat>, pos: nat, hist: seq<byte>)
    requires Table(t) && |bl| == 19 && ReachOK(w, hist) && (forall j :: 0 <= j < 19 ==> bl[j] <= 7)
    requires forall j: nat :: j < 19 && Place(j) >= HCLen(t) ==> bl[j] == 0
    requires DynOrder(inp, w, t, HCLen(t), bl, pos, hist).Done?
    ensures ShortCode(bl, HCLen(t)) && HCLen(t) <= 19 && Has(inp, pos, OrderBits(bl, HCLen(t), HCLen(t)))
    ensures DynOrder(inp, w, t, HCLen(t), bl, pos, hist)
         == DynLengths(inp, w, t, bl, [], pos, hist)
  {
    hide Has, Accepted, HLit, HDist, HCLen, DynLengths, DynOrder, Place;
    FitsOrder(t);
    OrderGoesOn(inp, w, t, HCLen(t), bl, pos, hist);
    HasNone(inp, pos);
    assert OrderBits(bl, HCLen(t), HCLen(t)) == [];
    SmallLengths(bl);
    OrderEnds(inp, w, t, bl, pos, hist);
  }

  /** The code-length code that has been sent, once all its lengths are in. */
  lemma {:induction false} ParseOrder(inp: seq<byte>, w: Reach, t: nat, i: nat, bl: seq<nat>, pos: nat, hist: seq<byte>)
    returns (all: seq<nat>)
    requires Table(t) && i <= HCLen(t) && |bl| == 19 && ReachOK(w, hist)
    requires (forall j :: 0 <= j < 19 ==> bl[j] <= 7) && forall j: nat :: j < 19 && Place(j) >= i ==> bl[j] == 0
    requires DynOrder(inp, w, t, i, bl, pos, hist).Done?
    ensures |all| == 19 && ShortCode(all, HCLen(t))
    ensures forall j: nat :: j < 19 && Place(j) < i ==> all[j] == bl[j]
    ensures HCLen(t) <= 19 && Has(inp, pos, OrderBits(all, i, HCLen(t)))
    ensures DynOrder(inp, w, t, i, bl, pos, hist)
         == DynLengths(inp, w, t, all, [], pos + 3 * (HCLen(t) - i), hist)
    decreases 19 - i
  {
    hide Peek, Has, Accepted, HLit, HDist, HCLen, DynLengths, DynOrder, Order, Place, Pow2, OrderBits,
      ShortCode;
    FitsOrder(t);
    OrderGoesOn(inp, w, t, i, bl, pos, hist);
    if i < HCLen(t) {
      var x := Peek(inp, pos, 3);
      PeekBound(inp, pos, 3);
      Pow2Values();
      BorderIsOrder(i);
      var next := bl[BORDER[i] := x];
      PlaceFilled(bl, next, i, x);
      OrderNext(inp, w, t, i, bl, pos, hist, next);
      all := ParseOrder(inp, w, t, i + 1, next, pos + 3, hist);
      PlaceKept(bl, next, all, i, x);
      OrderBitsNext(inp, pos, all, i, HCLen(t));
    } else {
      all := bl;
      OrderStops(inp, w, t, bl, pos, hist);
    }
  }

  lemma LengthsMore(lens: seq<nat>, n: nat, x: nat)
    requires Lengths(lens) && x <= MAXBITS
    ensures Lengths(lens + Repeat(n, x))
  {
  }

  /** An item that is read, and the lengths with it. */
  lemma ParseItem(inp: seq<byte>, limit: nat, t: nat, bl: seq<nat>, lens: seq<nat>, pos: nat, hist: seq<byte>)
    returns (e: Item, next: seq<nat>)
    requires Table(t) && |bl| == 19 && Usable(bl) && Accepted(bl) && |lens| < Total(t) && Lengths(lens)
    requires DynLengths(inp, Strict(limit), t, bl, lens, pos, hist).Done?
    ensures Spells(e, next, |lens|) && HasSymbol(bl, ItemSymbol(e)) && Has(inp, pos, ItemBits(e, bl))
    ensures lens <= next && |next| == |lens| + ItemSize(e) <= Total(t) && Lengths(next)
    ensures DynLengths(inp, Strict(limit), t, bl, lens, pos, hist)
         == DynLengths(inp, Strict(limit), t, bl, next, pos + |ItemBits(e, bl)|, hist)
  {
    hide Peek, Has, Accepted, HLit, HDist, HCLen, DynCodes, DynRun, Decode, Sym, Pow2, Kraft, Total;
    var c := Decode(bl, inp, pos);
    if c < 16 {
      ParseSymbol(inp, pos, bl);
      e, next := One(c), lens + [c];
      HasNone(inp, pos + bl[c]);
      assert Value(0, 0) == [];
      HasBoth(inp, pos, Sym(bl, c), Value(0, 0));
    } else {
      assert DynRun(inp, Strict(limit), t, bl, lens, c, pos + bl[c], hist).Done?;
      e, next := ParseRun(inp, limit, t, bl, lens, c, pos + bl[c], hist);
      ParseSymbol(inp, pos, bl);
      HasBoth(inp, pos, Sym(bl, c), Value(ItemExtra(e), e.n - ItemLeast(e)));
    }
  }

  lemma ParseRun(inp: seq<byte>, limit: nat, t: nat, bl: seq<nat>, lens: seq<nat>, c: nat, pos: nat, hist: seq<byte>)
    returns (e: Item, next: seq<nat>)
    requires Table(t) && |bl| == 19 && Usable(bl) && Accepted(bl) && |lens| < Total(t) && Lengths(lens)
    requires 16 <= c <= 18 && DynRun(inp, Strict(limit), t, bl, lens, c, pos, hist).Done?
    ensures Spells(e, next, |lens|) && ItemSymbol(e) == c && !e.One?
    ensures lens <= next && |next| == |lens| + ItemSize(e) <= Total(t) && Lengths(next)
    ensures ItemLeast(e) <= e.n && Has(inp, pos, Value(ItemExtra(e), e.n - ItemLeast(e)))
    ensures DynRun(inp, Strict(limit), t, bl, lens, c, pos, hist)
         == DynLengths(inp, Strict(limit), t, bl, next, pos + ItemExtra(e), hist)
  {
    hide Peek, Has, Accepted, HLit, HDist, HCLen, DynLengths, Pow2, Kraft, Total;
    var i := RunExtra(c);
    var v := Peek(inp, pos, i);
    PeekBound(inp, pos, i);
    Pow2Values();
    HasValue(inp, pos, i, v);
    var n := RunBase(c) + v;
    e := if c == 16 then Again(n) else if c == 17 then Zeros(n) else ManyZeros(n);
    var x := if c == 16 then lens[|lens| - 1] else 0;
    next := lens + Repeat(n, x);
    LengthsMore(lens, n, x);
  }

  lemma SpellsLonger(e: Item, lens: seq<nat>, more: seq<nat>, from: nat)
    requires Spells(e, lens, from) && lens <= more
    ensures Spells(e, more, from)
  {
  }

  lemma {:induction false} ParseItems(inp: seq<byte>, limit: nat, t: nat, bl: seq<nat>, lens: seq<nat>, pos: nat,
          hist: seq<byte>)
    returns (es: seq<Item>, all: seq<nat>)
    requires Table(t) && |bl| == 19 && Usable(bl) && Accepted(bl) && |lens| <= Total(t) && Lengths(lens)
    requires DynLengths(inp, Strict(limit), t, bl, lens, pos, hist).Done?
    ensures lens <= all && |all| == Total(t) && Lengths(all) && SpellAll(es, all, |lens|, bl)
    ensures Has(inp, pos, ItemsBits(es, all, |lens|, bl))
    ensures DynLengths(inp, Strict(limit), t, bl, lens, pos, hist)
         == DynCodes(inp, Strict(limit), t, all, pos + |ItemsBits(es, all, |lens|, bl)|, hist)
    decreases Total(t) - |lens|
  {
    hide Has, Accepted, HLit, HDist, DynCodes, DynRun, Decode, ItemBits, Total, Kraft, Spells;
    if |lens| == Total(t) {
      es, all := [], lens;
      HasNone(inp, pos);
      assert ItemsBits(es, all, |lens|, bl) == [];
    } else {
      var e, next := ParseItem(inp, limit, t, bl, lens, pos, hist);
      var more;
      SpelledOK(e, next, |lens|);
      more, all := ParseItems(inp, limit, t, bl, next, pos + |ItemBits(e, bl)|, hist);
      es := [e] + more;
      assert es[1..] == more && es[0] == e;
      SpellsLonger(e, next, all, |lens|);
      HasBoth(inp, pos, ItemBits(e, bl), ItemsBits(more, all, |next|, bl));
    }
  }

  lemma SpelledOK(e: Item, lens: seq<nat>, from: nat)
    requires Spells(e, lens, from)
    ensures ItemOK(e) && from + ItemSize(e) <= |lens|
  {
  }

  /** The codes of a dynamic block that is read to its end. */
  lemma ParseCodes(inp: seq<byte>, limit: nat, t: nat, all: seq<nat>, pos: nat, hist: seq<byte>)
    returns (ll: seq<nat>, dl: seq<nat>)
    requires Table(t) && |all| == Total(t) && Lengths(all) && DynCodes(inp, Strict(limit), t, all, pos, hist).Done?
    ensures all == ll + dl && |ll| == 257 + HLit(t) <= 286 && |dl| == 1 + HDist(t) <= 30 && Lengths(ll) && Lengths(dl)
    ensures Accepted(ll) && AcceptedDist(dl, |ll|)
    ensures DynCodes(inp, Strict(limit), t, all, pos, hist) == Body(inp, Strict(limit), ll, dl, pos, hist)
  {
    hide Accepted, AcceptedDist, HLit, HDist, Body;
    ll, dl := all[..257 + HLit(t)], all[257 + HLit(t)..];
  }

  /** The lengths of a dynamic block, from its counts on. */
  lemma ParseLengths(inp: seq<byte>, limit: nat, t: nat, pos: nat, hist: seq<byte>)
    returns (bl: seq<nat>, es: seq<Item>, all: seq<nat>)
    requires Table(t) && DynOrder(inp, Strict(limit), t, 0, seq(19, _ => 0), pos, hist).Done?
    ensures ShortCode(bl, HCLen(t)) && |all| == Total(t) && Lengths(all) && SpellAll(es, all, 0, bl)
    ensures Has(inp, pos, OrderBits(bl, 0, HCLen(t)) + ItemsBits(es, all, 0, bl))
    ensures DynOrder(inp, Strict(limit), t, 0, seq(19, _ => 0), pos, hist)
         == DynCodes(inp, Strict(limit), t, all, pos + 3 * HCLen(t) + |ItemsBits(es, all, 0, bl)|, hist)
  {
    hide Has, Accepted, HLit, HDist, HCLen, DynOrder, Place, DynLengths, Kraft, DynCodes, SpellAll, Usable, ShortCode,
      OrderBits, ItemsBits;
    FitsOrder(t);
    bl := ParseOrder(inp, Strict(limit), t, 0, seq(19, _ => 0), pos, hist);
    ShortMeans(bl, HCLen(t));
    SmallLengths([]);
    es, all := ParseItems(inp, limit, t, bl, [], pos + 3 * HCLen(t), hist);
    HasBoth(inp, pos, OrderBits(bl, 0, HCLen(t)), ItemsBits(es, all, 0, bl));
  }

  /** The counts of a dynamic block that is read to its end. */
  lemma ParseCounts(inp: seq<byte>, limit: nat, pos: nat, hist: seq<byte>)
    requires DynTable(inp, Strict(limit), pos, hist).Done?
    ensures var t := Peek(inp, pos, 14);
      && Table(t) && pos + 14 <= Bits8(inp) && 4 <= HCLen(t) <= 19
      && DynTable(inp, Strict(limit), pos, hist) == DynOrder(inp, Strict(limit), t, 0, seq(19, _ => 0), pos + 14, hist)
  {
    hide DynOrder, Peek;
    PeekBound(inp, pos, 14);
    Pow2Values();
  }

  lemma HasHeader(inp: seq<byte>, pos: nat, h: Header)
    requires HeaderOK(h) && pos + 14 <= Bits8(inp)
    requires var t := Peek(inp, pos, 14); 257 + HLit(t) == |h.ll| && 1 + HDist(t) == |h.dl| && HCLen(t) == h.n
    requires Has(inp, pos + 14, OrderBits(h.bl, 0, h.n) + ItemsBits(h.items, h.ll + h.dl, 0, h.bl))
    ensures Has(inp, pos, HeaderBits(h))
    ensures |HeaderBits(h)| == 14 + 3 * h.n + |ItemsBits(h.items, h.ll + h.dl, 0, h.bl)|
  {
    hide Has, Peek, HLit, HDist, HCLen, CountsBits, OrderBits, ItemsBits, SpellAll, Accepted, AcceptedDist, Lengths;
    HasCounts(inp, pos, h);
    HasBoth(inp, pos, CountsBits(h), OrderBits(h.bl, 0, h.n) + ItemsBits(h.items, h.ll + h.dl, 0, h.bl));
  }

  /** The header of a dynamic block that is read to its end. */
  lemma ParseHeader(inp: seq<byte>, limit: nat, pos: nat, hist: seq<byte>) returns (h: Header)
    requires DynTable(inp, Strict(limit), pos, hist).Done?
    ensures HeaderOK(h) && Has(inp, pos, HeaderBits(h)) && Codes2(h.ll, h.dl)
    ensures DynTable(inp, Strict(limit), pos, hist)
         == Body(inp, Strict(limit), h.ll, h.dl, pos + |HeaderBits(h)|, hist)
  {
    hide Has, Accepted, AcceptedDist, HLit, HDist, HCLen, DynOrder, Body, Peek, DynCodes, Lengths, SpellAll, DynTable,
      Place, OrderBits, ItemsBits, Table, Total, HeaderBits;
    ParseCounts(inp, limit, pos, hist);
    var t := Peek(inp, pos, 14);
    var bl, es, all := ParseLengths(inp, limit, t, pos + 14, hist);
    var q := pos + 14 + 3 * HCLen(t) + |ItemsBits(es, all, 0, bl)|;
    var ll, dl := ParseCodes(inp, limit, t, all, q, hist);
    h := Header(ll, dl, bl, HCLen(t), es);
    HasHeader(inp, pos, h);
  }

  lemma SmallLengths(bl: seq<nat>)
    requires forall j :: 0 <= j < |bl| ==> bl[j] <= 7
    ensures Lengths(bl)
  {
  }

  // ----- blocks -----

  /** A block that ends has a code for its end. */
  lemma {:induction false} BodyEnds(inp: seq<byte>, w: Reach, ll: seq<nat>, dl: seq<nat>, pos: nat, hist: seq<byte>)
    requires Codes2(ll, dl) && ReachOK(w, hist) && Body(inp, w, ll, dl, pos, hist).Done?
    ensures HasSymbol(ll, 256)
    decreases if pos <= Bits8(inp) then Bits8(inp) - pos + 2 else 1
  {
    hide LengthExtra, LengthBits, LengthBase;
    var s := Symbol(inp, w, ll, dl, pos, hist);
    if s.More? { BodyEnds(inp, w, ll, dl, s.pos, s.hist); }
  }

  lemma ParseBlock(inp: seq<byte>, kind: nat, pos: nat, hist: seq<byte>, data: seq<byte>, limit: nat)
    returns (b: Written)
    requires Block(inp, Strict(limit), kind, pos, hist).Done? && Block(inp, Strict(limit), kind, pos, hist).hist <= data
    ensures Kind(b) == kind && BlockTells(b, pos, data, |hist|, limit)
    ensures Has(inp, pos, BlockBits(b, pos, data, |hist|, limit))
    ensures Block(inp, Strict(limit), kind, pos, hist)
         == Done(pos + |BlockBits(b, pos, data, |hist|, limit)|, data[..b.to])
  {
    hide Has, TellAll, TokensBits, HeaderOK, HeaderBits, StoredBits, StoredLength, Body, DynTable, PadOK, HasSymbol,
      BothUsable, NextByte;
    var r := Block(inp, Strict(limit), kind, pos, hist);
    assert r.hist == data[..|r.hist|];
    if kind == 0 {
      var d := ParseStored(inp, pos, hist);
      b := StoredBlock(|r.hist|, PadAt(inp, pos));
      assert d == data[|hist|..|r.hist|];
    } else if kind == 1 {
      FixedUsable();
      var ts := ParseTokens(inp, pos, FixedLiteral(), FixedDistance(), hist, data, limit);
      b := FixedBlock(|r.hist|, ts);
    } else {
      var h := ParseHeader(inp, limit, pos, hist);
      BodyEnds(inp, Strict(limit), h.ll, h.dl, pos + |HeaderBits(h)|, hist);
      HeaderUsable(h);
      var ts := ParseTokens(inp, pos + |HeaderBits(h)|, h.ll, h.dl, hist, data, limit);
      b := DynamicBlock(|r.hist|, ts, h);
      HasBoth(inp, pos, HeaderBits(h), TokensBits(ts, data, |hist|, |r.hist|, limit, h.ll, h.dl));
    }
  }

  /** A stream that the format finishes was written for what it yields. */
  lemma {:induction false} ParseStream(inp: seq<byte>, pos: nat, hist: seq<byte>, limit: nat) returns (bs: seq<Written>)
    requires Blocks(inp, Strict(limit), pos, hist).stop.End?
    ensures var o := Blocks(inp, Strict(limit), pos, hist);
      && StreamTells(bs, pos, o.out, |hist|, limit) && Has(inp, pos, StreamBits(bs, pos, o.out, |hist|, limit))
      && o.stop.pos == pos + |StreamBits(bs, pos, o.out, |hist|, limit)|
    decreases if pos <= Bits8(inp) then Bits8(inp) - pos + 2 else 1
  {
    hide Has, Block, BlockTells, BlockBits, Peek, Kind, Head;
    var o := Blocks(inp, Strict(limit), pos, hist);
    var last, kind := Peek(inp, pos, 1), Peek(inp, pos + 1, 2);
    var r := Block(inp, Strict(limit), kind, pos + 3, hist);
    PeekBound(inp, pos, 1);
    PeekBound(inp, pos + 1, 2);
    Pow2Values();
    HasHead(inp, pos, last == 1, kind);
    var head := Head(last == 1, kind);
    var b := ParseBlock(inp, kind, pos + 3, hist, o.out, limit);
    ToWithin(b, pos + 3, o.out, |hist|, limit);
    var bits := BlockBits(b, pos + 3, o.out, |hist|, limit);
    HasBoth(inp, pos, head, bits);
    if last == 1 {
      bs := [b];
    } else {
      var more := ParseStream(inp, r.pos, r.hist, limit);
      bs := [b] + more;
      assert bs[1..] == more && bs[0] == b;
      HasBoth(inp, pos, head + bits, StreamBits(more, r.pos, o.out, |r.hist|, limit));
    }
  }

  /** The format finishes a stream, with these data and at this position, if and only if
      there is a way of writing the data that puts these bits there. */
  lemma FinishedIsWritten(inp: seq<byte>, pos: nat, data: seq<byte>, from: nat, limit: nat, end: nat)
    requires from <= |data|
    ensures Blocks(inp, Strict(limit), pos, data[..from]) == Outcome(data, End(end))
       <==> exists bs: seq<Written> :: WrittenAt(inp, bs, pos, data, from, limit, end)
  {
    hide Blocks, StreamTells, StreamBits, Has;
    if Blocks(inp, Strict(limit), pos, data[..from]) == Outcome(data, End(end)) {
      var bs := ParseStream(inp, pos, data[..from], limit);
      assert WrittenAt(inp, bs, pos, data, from, limit, end);
    }
    if bs: seq<Written> :| WrittenAt(inp, bs, pos, data, from, limit, end) {
      ReadsStream(inp, bs, pos, data, from, limit);
    }
  }

  /** The bits from pos to end are those of these blocks. */
  ghost predicate WrittenAt(inp: seq<byte>, bs: seq<Written>, pos: nat, data: seq<byte>, from: nat, limit: nat,
          end: nat) {
    && StreamTells(bs, pos, data, from, limit) && Has(inp, pos, StreamBits(bs, pos, data, from, limit))
    && end == pos + |StreamBits(bs, pos, data, from, limit)|
  }
}
