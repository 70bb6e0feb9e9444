/** The format from the writer's side (section 3.2 of RFC 1951): how literals, strings,
    vectors of code lengths and blocks are put into bits, stated without the tables and
    the functions of the decoder.  Whatever is written so is read back as the data it
    was written for. */
module Writer {
  import opened Bits
  import opened Canonical
  import opened Trees
  import opened InfUtil
  import opened Deflate
  import opened Values

  // ----- bits -----

  type bit = x: nat | x < 2

  /** A number in n bits, lowest bit first. */
  function Value(n: nat, v: nat): (r: seq<bit>)
    ensures |r| == n
  {
    if n == 0 then [] else [v % 2] + Value(n - 1, v / 2)
  }

  /** A Huffman code of n bits, highest bit first. */
  function CodeBits(n: nat, c: nat): (r: seq<bit>)
    ensures |r| == n
  {
    if n == 0 then [] else CodeBits(n - 1, c / 2) + [c % 2]
  }

  /** These bits are the next in the stream. */
  ghost predicate Has(inp: seq<byte>, pos: nat, bits: seq<bit>) {
    pos + |bits| <= Bits8(inp) && forall i :: 0 <= i < |bits| ==> Bit(inp, pos + i) == bits[i]
  }

  lemma HasBoth(inp: seq<byte>, pos: nat, a: seq<bit>, b: seq<bit>)
    ensures Has(inp, pos, a + b) <==> Has(inp, pos, a) && Has(inp, pos + |a|, b)
  {
    hide Bit;
    if Has(inp, pos, a + b) {
      forall i | 0 <= i < |a|
        ensures Bit(inp, pos + i) == a[i]
      {
        assert (a + b)[i] == a[i];
      }
      forall i | 0 <= i < |b|
        ensures Bit(inp, pos + |a| + i) == b[i]
      {
        assert (a + b)[|a| + i] == b[i];
        assert pos + (|a| + i) == pos + |a| + i;
      }
    }
    if Has(inp, pos, a) && Has(inp, pos + |a|, b) {
      forall i | 0 <= i < |a + b|
        ensures Bit(inp, pos + i) == (a + b)[i]
      {
        if i >= |a| { assert pos + |a| + (i - |a|) == pos + i; }
      }
    }
  }

  lemma HasOne(inp: seq<byte>, pos: nat, x: bit)
    ensures Has(inp, pos, [x]) <==> pos < Bits8(inp) && Bit(inp, pos) == x
  {
    hide Bit;
    if Has(inp, pos, [x]) { assert Bit(inp, pos + 0) == [x][0]; }
  }

  lemma {:induction false} HasValue(inp: seq<byte>, pos: nat, n: nat, v: nat)
    requires v < Pow2(n)
    ensures Has(inp, pos, Value(n, v)) <==> pos + n <= Bits8(inp) && Peek(inp, pos, n) == v
    decreases n
  {
    hide Bit, Has;
    if n == 0 {
      assert Value(0, v) == [];
      HasNone(inp, pos);
    } else {
      HasOne(inp, pos, v % 2);
      HasBoth(inp, pos, [v % 2], Value(n - 1, v / 2));
      HasValue(inp, pos + 1, n - 1, v / 2);
      PeekHalf(inp, pos, n);
    }
  }

  lemma HasNone(inp: seq<byte>, pos: nat)
    ensures Has(inp, pos, []) <==> pos <= Bits8(inp)
  {
  }

  lemma {:induction false} HasCode(inp: seq<byte>, pos: nat, n: nat, c: nat)
    requires c < Pow2(n)
    ensures Has(inp, pos, CodeBits(n, c)) <==> pos + n <= Bits8(inp) && PeekMsb(inp, pos, n) == c
  {
    hide Bit, Has;
    if n == 0 {
      assert CodeBits(0, c) == [];
      HasNone(inp, pos);
    } else {
      HasCode(inp, pos, n - 1, c / 2);
      HasBoth(inp, pos, CodeBits(n - 1, c / 2), [c % 2]);
      HasOne(inp, pos + n - 1, c % 2);
    }
  }

  // ----- symbols -----

  ghost predicate Usable(lens: seq<nat>) { Lengths(lens) && Kraft(lens) <= Pow2(MAXBITS) }

  ghost predicate HasSymbol(lens: seq<nat>, s: nat) { s < |lens| && 0 < lens[s] }

  /** The code of a symbol. */
  ghost function Sym(lens: seq<nat>, s: nat): (r: seq<bit>)
    requires HasSymbol(lens, s)
    ensures |r| == lens[s]
  {
    CodeBits(lens[s], Code(lens, s))
  }

  lemma ReadsSymbol(inp: seq<byte>, pos: nat, lens: seq<nat>, s: nat)
    requires Usable(lens) && HasSymbol(lens, s)
    ensures Has(inp, pos, Sym(lens, s)) <==> pos + lens[s] <= Bits8(inp) && Decode(lens, inp, pos) == s
  {
    hide Has, Code, Decode, Kraft;
    CodeFits(lens, s);
    HasCode(inp, pos, lens[s], Code(lens, s));
    DecodeUnique(lens, s, inp, pos);
  }

  // ----- literals and strings -----

  /** A byte, or a string: a length symbol and a distance symbol with their extra bits. */
  datatype Token = Lit(x: byte) | Str(ls: nat, le: nat, ds: nat, de: nat)

  /** The symbols have such extra bits. */
  predicate TokenOK(t: Token) {
    t.Str? ==>
      && 257 <= t.ls <= 285 && t.le < Pow2(LengthExtraBits(t.ls))
      && t.ds < 30 && t.de < Pow2(DistanceExtraBits(t.ds))
  }

  function Size(t: Token): (r: nat)
    requires TokenOK(t)
    ensures r > 0
  {
    if t.Lit? then 1 else FirstLength(t.ls) + t.le
  }

  function Far(t: Token): (r: nat)
    requires TokenOK(t) && t.Str?
    ensures r > 0
  {
    FirstDistance(t.ds) + t.de
  }

  /** The token stands for the data at `from`: its byte, or a string that repeats what
      comes that far before it. */
  ghost predicate Tells(t: Token, data: seq<byte>, from: nat, limit: nat) {
    && TokenOK(t) && from + Size(t) <= |data|
    && (t.Lit? ==> data[from] == t.x)
    && (t.Str? ==> Far(t) <= from && Far(t) <= limit && Repeats(data, from, Size(t), Far(t)))
  }

  ghost predicate Repeats(data: seq<byte>, from: nat, len: nat, dist: nat)
    requires 0 < dist <= from && from + len <= |data|
  {
    forall i :: from <= i < from + len ==> data[i] == data[i - dist]
  }

  ghost predicate TokenCoded(t: Token, ll: seq<nat>, dl: seq<nat>) {
    match t
    case Lit(x) => HasSymbol(ll, x)
    case Str(ls, _, ds, _) => HasSymbol(ll, ls) && HasSymbol(dl, ds)
  }

  ghost function TokenBits(t: Token, ll: seq<nat>, dl: seq<nat>): seq<bit>
    requires TokenOK(t) && TokenCoded(t, ll, dl)
  {
    match t
    case Lit(x) => Sym(ll, x)
    case Str(ls, le, ds, de) =>
      Sym(ll, ls) + Value(LengthExtraBits(ls), le) + Sym(dl, ds) + Value(DistanceExtraBits(ds), de)
  }

  /** Tokens for the data from `from` to `to`. */
  ghost predicate TellAll(ts: seq<Token>, data: seq<byte>, from: nat, to: nat, limit: nat, ll: seq<nat>,
          dl: seq<nat>): (b: bool)
    ensures b ==> from <= to <= |data|
  {
    if ts == [] then from == to <= |data|
    else
      && Tells(ts[0], data, from, limit) && TokenCoded(ts[0], ll, dl)
      && TellAll(ts[1..], data, from + Size(ts[0]), to, limit, ll, dl)
  }

  ghost predicate BothUsable(ll: seq<nat>, dl: seq<nat>) {
    Codes2(ll, dl) && Usable(ll) && Usable(dl) && HasSymbol(ll, 256)
  }

  /** Tokens, and the end of the block. */
  ghost function TokensBits(ts: seq<Token>, data: seq<byte>, from: nat, to: nat, limit: nat, ll: seq<nat>,
          dl: seq<nat>): seq<bit>
    requires HasSymbol(ll, 256) && TellAll(ts, data, from, to, limit, ll, dl)
  {
    if ts == [] then Sym(ll, 256)
    else TokenBits(ts[0], ll, dl) + TokensBits(ts[1..], data, from + Size(ts[0]), to, limit, ll, dl)
  }

  /** Copying byte by byte gives the data that repeats itself. */
  lemma {:induction false} CopyRepeats(data: seq<byte>, from: nat, len: nat, dist: nat, limit: nat)
    requires 0 < dist <= from && from + len <= |data| && dist <= limit
    ensures Repeats(data, from, len, dist) <==> Copy(Strict(limit), dist, len, data[..from]) == data[..from + len]
    decreases len
  {
    if len > 0 {
      var h := data[..from];
      var r := Copy(Strict(limit), dist, len - 1, h + [h[from - dist]]);
      assert h + [h[from - dist]] <= r;
      if data[from] == data[from - dist] {
        assert h + [h[from - dist]] == data[..from + 1];
        CopyRepeats(data, from + 1, len - 1, dist, limit);
      } else {
        assert r[from] != data[..from + len][from];
      }
    }
  }

  lemma ReadsDistance(inp: seq<byte>, pos: nat, t: Token, dl: seq<nat>, len: nat, data: seq<byte>, from: nat,
          limit: nat)
    requires TokenOK(t) && t.Str? && |dl| <= 30 && Usable(dl) && HasSymbol(dl, t.ds)
    requires from + len <= |data| && Far(t) <= from && Far(t) <= limit && Repeats(data, from, len, Far(t))
    requires Has(inp, pos, Sym(dl, t.ds) + Value(DistanceExtraBits(t.ds), t.de))
    ensures Distance(inp, Strict(limit), dl, len, pos, data[..from])
         == More(pos + dl[t.ds] + DistanceExtraBits(t.ds), data[..from + len])
  {
    hide Has, Peek, Copy, Decode, DistanceBits, DistanceBase, FirstDistance, Repeats, Pow2, Kraft, Sym;
    HasBoth(inp, pos, Sym(dl, t.ds), Value(DistanceExtraBits(t.ds), t.de));
    ReadsSymbol(inp, pos, dl, t.ds);
    DistanceTables(t.ds);
    HasValue(inp, pos + dl[t.ds], DistanceExtraBits(t.ds), t.de);
    CopyRepeats(data, from, len, Far(t), limit);
  }

  /** A token that was written is read as the data that it tells. */
  lemma ReadsToken(inp: seq<byte>, pos: nat, t: Token, ll: seq<nat>, dl: seq<nat>, data: seq<byte>, from: nat,
          limit: nat)
    requires BothUsable(ll, dl) && Tells(t, data, from, limit) && TokenCoded(t, ll, dl)
    requires Has(inp, pos, TokenBits(t, ll, dl))
    ensures Symbol(inp, Strict(limit), ll, dl, pos, data[..from])
         == More(pos + |TokenBits(t, ll, dl)|, data[..from + Size(t)])
  {
    hide Has, Peek, Distance, Decode, LengthBits, LengthBase, FirstLength, Repeats, Pow2, Kraft, Sym, Usable;
    if t.Lit? {
      ReadsSymbol(inp, pos, ll, t.x);
      assert data[..from] + [t.x] == data[..from + 1];
    } else {
      var a, b := Sym(ll, t.ls), Value(LengthExtraBits(t.ls), t.le);
      var c, d := Sym(dl, t.ds), Value(DistanceExtraBits(t.ds), t.de);
      assert TokenBits(t, ll, dl) == (a + b) + (c + d);
      HasBoth(inp, pos, a + b, c + d);
      HasBoth(inp, pos, a, b);
      ReadsSymbol(inp, pos, ll, t.ls);
      LengthTables(t.ls);
      HasValue(inp, pos + ll[t.ls], LengthExtraBits(t.ls), t.le);
      ReadsDistance(inp, pos + |a + b|, t, dl, Size(t), data, from, limit);
    }
  }

  lemma {:induction false} ReadsTokens(inp: seq<byte>, pos: nat, ts: seq<Token>, ll: seq<nat>, dl: seq<nat>,
          data: seq<byte>, from: nat, to: nat, limit: nat)
    requires BothUsable(ll, dl) && TellAll(ts, data, from, to, limit, ll, dl)
    requires Has(inp, pos, TokensBits(ts, data, from, to, limit, ll, dl))
    ensures Body(inp, Strict(limit), ll, dl, pos, data[..from])
         == Done(pos + |TokensBits(ts, data, from, to, limit, ll, dl)|, data[..to])
    decreases |ts|
  {
    hide Has, Symbol, Repeats, TokenCoded, Decode, Kraft, Sym, TokenBits, Size;
    if ts == [] {
      EndsBlock(inp, pos, ll, dl, data[..from], limit);
    } else {
      var a := TokenBits(ts[0], ll, dl);
      var b := TokensBits(ts[1..], data, from + Size(ts[0]), to, limit, ll, dl);
      HasBoth(inp, pos, a, b);
      ReadsToken(inp, pos, ts[0], ll, dl, data, from, limit);
      ReadsTokens(inp, pos + |a|, ts[1..], ll, dl, data, from + Size(ts[0]), to, limit);
    }
  }

  lemma EndsBlock(inp: seq<byte>, pos: nat, ll: seq<nat>, dl: seq<nat>, hist: seq<byte>, limit: nat)
    requires BothUsable(ll, dl)
    ensures Has(inp, pos, Sym(ll, 256)) <==> Symbol(inp, Strict(limit), ll, dl, pos, hist) == EndOfBlock(pos + ll[256])
  {
    hide Has, Decode, Sym, LengthExtra, Kraft;
    ReadsSymbol(inp, pos, ll, 256);
  }

  // ----- stored blocks -----

  /** Bytes as they are. */
  function Plain(data: seq<byte>): (r: seq<bit>)
    ensures |r| == 8 * |data|
  {
    if data == [] then [] else Value(8, data[0]) + Plain(data[1..])
  }

  /** Any bits up to the next byte. */
  ghost predicate PadOK(pad: seq<bit>, pos: nat) {
    |pad| < 8 && (pos + |pad|) % 8 == 0
  }

  /** Padding, the number of bytes and its complement in 16 bits each, and the bytes. */
  ghost function StoredBits(pad: seq<bit>, data: seq<byte>): seq<bit>
    requires |data| <= 65535
  {
    pad + (Value(16, |data|) + (Value(16, 65535 - |data|) + Plain(data)))
  }

  lemma HasByte(inp: seq<byte>, at: nat, x: byte)
    ensures Has(inp, 8 * at, Value(8, x)) <==> at < |inp| && inp[at] == x
  {
    hide Has, Peek;
    Pow2Values();
    HasValue(inp, 8 * at, 8, x);
    if at < |inp| { PeekByte(inp, at); }
  }

  lemma {:induction false} ReadsPlain(inp: seq<byte>, at: nat, data: seq<byte>, hist: seq<byte>)
    requires Has(inp, 8 * at, Plain(data))
    ensures at <= |inp| && Stored(inp, |data|, at, hist) == Done(8 * (at + |data|), hist + data)
    decreases |data|
  {
    hide Has;
    if data == [] {
      HasNone(inp, 8 * at);
      assert hist + data == hist;
    } else {
      HasBoth(inp, 8 * at, Value(8, data[0]), Plain(data[1..]));
      HasByte(inp, at, data[0]);
      assert hist + data == hist + [data[0]] + data[1..];
      ReadsPlain(inp, at + 1, data[1..], hist + [data[0]]);
    }
  }

  /** Sixteen bits are two bytes, low byte first. */
  lemma HasWord(inp: seq<byte>, at: nat, v: nat)
    requires v < 65536
    ensures Has(inp, 8 * at, Value(16, v)) <==> at + 2 <= |inp| && Word(inp[at], inp[at + 1]) == v
  {
    hide Has, Peek;
    Pow2Values();
    HasValue(inp, 8 * at, 16, v);
    if at + 2 <= |inp| {
      PeekByte(inp, at);
      PeekByte(inp, at + 1);
      PeekCut(inp, 8 * at, 8, 8);
      LowShr(Peek(inp, 8 * at, 16), 8);
      Shl256(inp[at + 1]);
    }
  }

  lemma Shl32(x: nat)
    ensures Shl(x, 5) == 32 * x
  {
    assert Shl(x, 1) == 2 * x;
    assert Shl(x, 2) == 4 * x;
    assert Shl(x, 3) == 8 * x;
    assert Shl(x, 4) == 16 * x;
  }

  lemma Shl256(x: nat)
    ensures Shl(x, 8) == 256 * x
  {
    Shl32(x);
    assert Shl(x, 6) == 64 * x;
    assert Shl(x, 7) == 128 * x;
  }

  /** A stored block is read as its bytes. */
  lemma ReadsStored(inp: seq<byte>, pos: nat, pad: seq<bit>, data: seq<byte>, hist: seq<byte>)
    requires PadOK(pad, pos) && |data| <= 65535 && Has(inp, pos, StoredBits(pad, data))
    ensures StoredLength(inp, NextByte(pos), hist) == Done(pos + |StoredBits(pad, data)|, hist + data)
  {
    hide Has, Stored, Value, Plain;
    var at := NextByte(pos);
    var a, b, c := Value(16, |data|), Value(16, 65535 - |data|), Plain(data);
    HasBoth(inp, pos, pad, a + (b + c));
    assert pos + |pad| == 8 * at;
    HasBoth(inp, 8 * at, a, b + c);
    HasBoth(inp, 8 * at + 16, b, c);
    HasWord(inp, at, |data|);
    HasWord(inp, at + 2, 65535 - |data|);
    ReadsPlain(inp, at + 4, data, hist);
  }

  // ----- the lengths of a dynamic block -----

  /** The order in which the lengths of the code-length code are sent: the three kinds of
      runs, 0, and then outwards from 8 in turn. */
  function Order(i: nat): (j: nat)
    requires i < 19
    ensures j < 19
  {
    if i < 3 then 16 + i else if i == 3 then 0 else if i % 2 == 0 then i / 2 + 6 else 9 - i / 2
  }

  function Place(j: nat): (i: nat)
    requires j < 19
    ensures i < 19 && Order(i) == j
  {
    if j >= 16 then j - 16 else if j == 0 then 3 else if j >= 8 then 2 * j - 12 else 19 - 2 * j
  }

  lemma OrderPlace(i: nat)
    requires i < 19
    ensures Place(Order(i)) == i
  {
  }

  lemma BorderIsOrder(i: nat)
    requires i < 19
    ensures BORDER[i] == Order(i)
  {
  }

  /** A length, the one before it 3 to 6 times more, 3 to 10 zeros, or 11 to 138 zeros. */
  datatype Item = One(x: nat) | Again(n: nat) | Zeros(n: nat) | ManyZeros(n: nat)

  predicate ItemOK(e: Item) {
    match e
    case One(x) => x <= 15
    case Again(n) => 3 <= n <= 6
    case Zeros(n) => 3 <= n <= 10
    case ManyZeros(n) => 11 <= n <= 138
  }

  function ItemSize(e: Item): (r: nat)
    requires ItemOK(e)
    ensures r > 0
  {
    if e.One? then 1 else e.n
  }

  function ItemSymbol(e: Item): (r: nat)
    requires ItemOK(e)
    ensures r <= 18
  {
    match e
    case One(x) => x
    case Again(_) => 16
    case Zeros(_) => 17
    case ManyZeros(_) => 18
  }

  /** The item stands for the lengths at `from`. */
  ghost predicate Spells(e: Item, lens: seq<nat>, from: nat) {
    && ItemOK(e) && from + ItemSize(e) <= |lens|
    && match e
      case One(x) => lens[from] == x
      case Again(n) => from > 0 && forall i :: from <= i < from + n ==> lens[i] == lens[from - 1]
      case Zeros(n) => forall i :: from <= i < from + n ==> lens[i] == 0
      case ManyZeros(n) => forall i :: from <= i < from + n ==> lens[i] == 0
  }

  /** The number of extra bits of a run, and its length without them. */
  function ItemExtra(e: Item): nat {
    match e case One(_) => 0 case Again(_) => 2 case Zeros(_) => 3 case ManyZeros(_) => 7
  }
  function ItemLeast(e: Item): nat { match e case One(_) => 1 case ManyZeros(_) => 11 case _ => 3 }

  ghost function ItemBits(e: Item, bl: seq<nat>): seq<bit>
    requires ItemOK(e) && HasSymbol(bl, ItemSymbol(e))
  {
    Sym(bl, ItemSymbol(e)) + Value(ItemExtra(e), ItemSize(e) - ItemLeast(e))
  }

  ghost predicate SpellAll(es: seq<Item>, lens: seq<nat>, from: nat, bl: seq<nat>) {
    if es == [] then from == |lens|
    else
      && Spells(es[0], lens, from) && HasSymbol(bl, ItemSymbol(es[0]))
      && SpellAll(es[1..], lens, from + ItemSize(es[0]), bl)
  }

  ghost function ItemsBits(es: seq<Item>, lens: seq<nat>, from: nat, bl: seq<nat>): seq<bit>
    requires SpellAll(es, lens, from, bl)
  {
    if es == [] then [] else ItemBits(es[0], bl) + ItemsBits(es[1..], lens, from + ItemSize(es[0]), bl)
  }

  /** The first n lengths of the code-length code, from the i-th of the order on. */
  ghost function OrderBits(bl: seq<nat>, i: nat, n: nat): (r: seq<bit>)
    requires |bl| == 19 && i <= n <= 19
    ensures |r| == 3 * (n - i)
    decreases n - i
  {
    if i == n then [] else Value(3, bl[Order(i)]) + OrderBits(bl, i + 1, n)
  }

  /** The two vectors of lengths, the code-length code of which the first n lengths are
      sent, and how the two vectors are spelled in it. */
  datatype Header = Header(ll: seq<nat>, dl: seq<nat>, bl: seq<nat>, n: nat, items: seq<Item>)

  /** A code-length code of which n lengths have to be sent. */
  ghost predicate ShortCode(bl: seq<nat>, n: nat) {
    && |bl| == 19 && 4 <= n <= 19 && Accepted(bl) && (forall j :: 0 <= j < 19 ==> bl[j] <= 7)
    && forall j: nat :: j < 19 && Place(j) >= n ==> bl[j] == 0
  }

  ghost predicate HeaderOK(h: Header) {
    && 257 <= |h.ll| <= 286 && 1 <= |h.dl| <= 30 && Lengths(h.ll) && Lengths(h.dl)
    && ShortCode(h.bl, h.n) && SpellAll(h.items, h.ll + h.dl, 0, h.bl)
    && Accepted(h.ll) && AcceptedDist(h.dl, |h.ll|)
  }

  ghost function CountsBits(h: Header): (r: seq<bit>)
    requires HeaderOK(h)
    ensures |r| == 14
  {
    Value(5, |h.ll| - 257) + Value(5, |h.dl| - 1) + Value(4, h.n - 4)
  }

  ghost function HeaderBits(h: Header): seq<bit>
    requires HeaderOK(h)
  {
    CountsBits(h) + (OrderBits(h.bl, 0, h.n) + ItemsBits(h.items, h.ll + h.dl, 0, h.bl))
  }

  lemma AcceptedUsable(lens: seq<nat>)
    requires Lengths(lens) && Accepted(lens)
    ensures Usable(lens)
  {
  }

  /** The three counts of the header are read one by one. */
  lemma CountFields(inp: seq<byte>, pos: nat)
    ensures var t := Peek(inp, pos, 14);
      HLit(t) == Peek(inp, pos, 5) && HDist(t) == Peek(inp, pos + 5, 5) && HCLen(t) == 4 + Peek(inp, pos + 10, 4)
  {
    hide Peek, Shr, Low, Shl;
    var t := Peek(inp, pos, 14);
    PeekCut(inp, pos, 5, 9);
    PeekCut(inp, pos + 5, 5, 4);
    LowFive(t);
    LowFive(Shr(t, 5));
  }

  lemma LowFive(t: nat)
    ensures Low(t, 5) == t % 32 && Shr(t, 5) == t / 32
  {
    hide Shr, Low, Shl;
    LowShr(t, 5);
    LowBound(t, 5);
    Shl32(Shr(t, 5));
    Pow2Values();
  }

  lemma HasCounts(inp: seq<byte>, pos: nat, h: Header)
    requires HeaderOK(h)
    ensures var t := Peek(inp, pos, 14);
      Has(inp, pos, CountsBits(h)) <==>
        pos + 14 <= Bits8(inp) && 257 + HLit(t) == |h.ll| && 1 + HDist(t) == |h.dl| && HCLen(t) == h.n
  {
    hide Peek, Has, Accepted, AcceptedDist, SpellAll, Lengths, HLit, HDist, HCLen;
    var a, b, c := Value(5, |h.ll| - 257), Value(5, |h.dl| - 1), Value(4, h.n - 4);
    Pow2Values();
    HasBoth(inp, pos, a + b, c);
    HasBoth(inp, pos, a, b);
    HasValue(inp, pos, 5, |h.ll| - 257);
    HasValue(inp, pos + 5, 5, |h.dl| - 1);
    HasValue(inp, pos + 10, 4, h.n - 4);
    CountFields(inp, pos);
  }

  /** The lengths of the code-length code that have come after i of them. */
  ghost function Sent(bl: seq<nat>, i: nat): (r: seq<nat>)
    requires |bl| == 19
    ensures |r| == 19
  {
    seq(19, j requires 0 <= j < 19 => if Place(j) < i then bl[j] else 0)
  }

  lemma SentMore(bl: seq<nat>, i: nat)
    requires |bl| == 19 && i < 19
    ensures Sent(bl, i)[BORDER[i] := bl[Order(i)]] == Sent(bl, i + 1)
  {
    hide Order, Place;
    BorderIsOrder(i);
    OrderPlace(i);
    var u := Sent(bl, i)[BORDER[i] := bl[Order(i)]];
    forall j: nat | j < 19
      ensures u[j] == Sent(bl, i + 1)[j]
    {
      if Place(j) == i { assert Order(Place(j)) == j; }
    }
  }

  lemma SentAll(bl: seq<nat>, n: nat)
    requires ShortCode(bl, n)
    ensures Sent(bl, n) == bl
  {
    hide Accepted, Place;
  }

  lemma SentSmall(bl: seq<nat>, n: nat, i: nat)
    requires ShortCode(bl, n)
    ensures forall j :: 0 <= j < 19 ==> Sent(bl, i)[j] <= 7
  {
    hide Accepted, Place;
  }

  /** One length of the code-length code, and the end of them. */
  lemma OrderNext(inp: seq<byte>, w: Reach, t: nat, i: nat, bl: seq<nat>, pos: nat, hist: seq<byte>, next: seq<nat>)
    requires Table(t) && i < HCLen(t) && i < 19 && |bl| == 19 && ReachOK(w, hist) && pos + 3 <= Bits8(inp)
    requires (forall j :: 0 <= j < 19 ==> bl[j] <= 7) && forall j :: 0 <= j < |next| ==> next[j] <= 7
    requires next == bl[BORDER[i] := Peek(inp, pos, 3)]
    ensures DynOrder(inp, w, t, i, bl, pos, hist) == DynOrder(inp, w, t, i + 1, next, pos + 3, hist)
  {
    hide Peek, Accepted, DynLengths, HLit, HDist, HCLen;
  }

  lemma OrderEnds(inp: seq<byte>, w: Reach, t: nat, bl: seq<nat>, pos: nat, hist: seq<byte>)
    requires Table(t) && |bl| == 19 && ReachOK(w, hist) && (forall j :: 0 <= j < 19 ==> bl[j] <= 7)
    requires Accepted(bl) && Lengths(bl)
    ensures DynOrder(inp, w, t, HCLen(t), bl, pos, hist) == DynLengths(inp, w, t, bl, [], pos, hist)
  {
    hide Peek, Accepted, DynLengths, HLit, HDist, HCLen;
  }

  lemma {:induction false} ReadsOrder(inp: seq<byte>, w: Reach, pos: nat, t: nat, bl: seq<nat>, n: nat, i: nat,
          hist: seq<byte>)
    requires ShortCode(bl, n) && Lengths(bl) && Table(t) && HCLen(t) == n && i <= n && ReachOK(w, hist)
    requires Has(inp, pos, OrderBits(bl, i, n)) && forall j :: 0 <= j < 19 ==> Sent(bl, i)[j] <= 7
    ensures DynOrder(inp, w, t, i, Sent(bl, i), pos, hist) == DynLengths(inp, w, t, bl, [], pos + 3 * (n - i), hist)
    decreases n - i
  {
    hide Peek, Has, Accepted, HLit, HDist, HCLen, DynLengths, DynOrder, Order, Place, Pow2, Sent, Kraft;
    if i < n {
      var x := bl[Order(i)];
      Pow2Values();
      HasBoth(inp, pos, Value(3, x), OrderBits(bl, i + 1, n));
      HasValue(inp, pos, 3, x);
      SentMore(bl, i);
      SentSmall(bl, n, i + 1);
      OrderNext(inp, w, t, i, Sent(bl, i), pos, hist, Sent(bl, i + 1));
      ReadsOrder(inp, w, pos + 3, t, bl, n, i + 1, hist);
    } else {
      SentAll(bl, n);
      OrderEnds(inp, w, t, bl, pos, hist);
    }
  }

  lemma ReadsRun(inp: seq<byte>, w: Reach, pos: nat, t: nat, bl: seq<nat>, lens: seq<nat>, e: Item, from: nat,
          hist: seq<byte>)
    requires Table(t) && |bl| == 19 && Usable(bl) && Accepted(bl) && Lengths(lens)
    requires |lens| == Total(t) && ReachOK(w, hist) && Spells(e, lens, from) && !e.One?
    requires Has(inp, pos, Value(ItemExtra(e), e.n - ItemLeast(e)))
    ensures DynRun(inp, w, t, bl, lens[..from], ItemSymbol(e), pos, hist)
         == DynLengths(inp, w, t, bl, lens[..from + e.n], pos + ItemExtra(e), hist)
  {
    hide Has, Peek, Accepted, HLit, HDist, HCLen, DynLengths, Pow2, Kraft;
    Pow2Values();
    HasValue(inp, pos, ItemExtra(e), e.n - ItemLeast(e));
    var x := if e.Again? then lens[from - 1] else 0;
    assert lens[..from] + Repeat(e.n, x) == lens[..from + e.n];
  }

  /** One item, read: the lengths up to and with it. */
  lemma ReadsItem(inp: seq<byte>, w: Reach, pos: nat, t: nat, bl: seq<nat>, lens: seq<nat>, e: Item, from: nat,
          hist: seq<byte>)
    requires Table(t) && |bl| == 19 && Usable(bl) && Accepted(bl) && Lengths(lens)
    requires |lens| == Total(t) && ReachOK(w, hist) && Spells(e, lens, from)
    requires HasSymbol(bl, ItemSymbol(e)) && Has(inp, pos, ItemBits(e, bl))
    ensures DynLengths(inp, w, t, bl, lens[..from], pos, hist)
         == DynLengths(inp, w, t, bl, lens[..from + ItemSize(e)], pos + |ItemBits(e, bl)|, hist)
  {
    hide Peek, Has, Accepted, HLit, HDist, HCLen, DynCodes, DynRun, Decode, Sym, Usable;
    var c := ItemSymbol(e);
    HasBoth(inp, pos, Sym(bl, c), Value(ItemExtra(e), ItemSize(e) - ItemLeast(e)));
    ReadsSymbol(inp, pos, bl, c);
    if e.One? {
      assert lens[..from] + [e.x] == lens[..from + 1];
    } else {
      ReadsRun(inp, w, pos + bl[c], t, bl, lens, e, from, hist);
    }
  }

  lemma {:induction false} ReadsItems(inp: seq<byte>, w: Reach, pos: nat, t: nat, bl: seq<nat>, lens: seq<nat>,
          es: seq<Item>, from: nat, hist: seq<byte>)
    requires Table(t) && |bl| == 19 && Usable(bl) && Accepted(bl) && Lengths(lens)
    requires |lens| == Total(t) && ReachOK(w, hist) && from <= |lens|
    requires SpellAll(es, lens, from, bl) && Has(inp, pos, ItemsBits(es, lens, from, bl))
    ensures DynLengths(inp, w, t, bl, lens[..from], pos, hist)
         == DynCodes(inp, w, t, lens, pos + |ItemsBits(es, lens, from, bl)|, hist)
    decreases |es|
  {
    hide Has, Accepted, HLit, HDist, DynCodes, DynRun, Decode, ItemBits, Total, Kraft;
    if es == [] {
      assert lens[..from] == lens;
      assert ItemsBits(es, lens, from, bl) == [];
    } else {
      var a := ItemBits(es[0], bl);
      var b := ItemsBits(es[1..], lens, from + ItemSize(es[0]), bl);
      HasBoth(inp, pos, a, b);
      ReadsItem(inp, w, pos, t, bl, lens, es[0], from, hist);
      ReadsItems(inp, w, pos + |a|, t, bl, lens, es[1..], from + ItemSize(es[0]), hist);
    }
  }

  /** A header that was written is read back as the same two vectors of lengths. */
  lemma ReadsHeader(inp: seq<byte>, w: Reach, pos: nat, h: Header, hist: seq<byte>)
    requires HeaderOK(h) && ReachOK(w, hist) && Has(inp, pos, HeaderBits(h))
    ensures DynTable(inp, w, pos, hist) == Body(inp, w, h.ll, h.dl, pos + |HeaderBits(h)|, hist)
  {
    hide Has, Accepted, AcceptedDist, HLit, HDist, HCLen, DynOrder, Order, Place, Decode, Body, DynLengths, Peek, Pow2;
    var t, lens := Peek(inp, pos, 14), h.ll + h.dl;
    var a, b, c := CountsBits(h), OrderBits(h.bl, 0, h.n), ItemsBits(h.items, lens, 0, h.bl);
    HasBoth(inp, pos, a, b + c);
    HasBoth(inp, pos + 14, b, c);
    HasCounts(inp, pos, h);
    PeekBound(inp, pos, 14);
    Pow2Values();
    assert Sent(h.bl, 0) == seq(19, _ => 0);
    AcceptedUsable(h.bl);
    SentSmall(h.bl, h.n, 0);
    ReadsOrder(inp, w, pos + 14, t, h.bl, h.n, 0, hist);
    assert lens[..0] == [];
    AcceptedUsable(h.bl);
    ReadsItems(inp, w, pos + 14 + |b|, t, h.bl, lens, h.items, 0, hist);
    assert lens[..|h.ll|] == h.ll && lens[|h.ll|..] == h.dl;
  }

  // ----- the fixed codes -----

  /** The fixed code of a literal/length symbol (section 3.2.6): its length and the code. */
  function FixedCode(s: nat): (nat, nat)
    requires s < 288
  {
    if s < 144 then (8, 48 + s)
    else if s < 256 then (9, 400 + (s - 144))
    else if s < 280 then (7, s - 256)
    else (8, 192 + (s - 280))
  }

  /** How many of the first n symbols of the fixed code have a length. */
  function FixedCount(n: nat, L: nat): int
    requires n <= 288
  {
    if L == 7 then (if n <= 256 then 0 else if n <= 280 then n - 256 else 24)
    else if L == 8 then (if n <= 144 then n else if n <= 280 then 144 else n - 136)
    else if L == 9 then (if n <= 144 then 0 else if n <= 256 then n - 144 else 112)
    else 0
  }

  lemma {:induction false} CountFixed(n: nat, L: nat)
    requires n <= 288
    ensures Count(FixedLiteral()[..n], L) == FixedCount(n, L)
  {
    if n > 0 {
      CountFixed(n - 1, L);
      CountPrefix(FixedLiteral(), n - 1, L);
    }
  }

  lemma {:induction false} NextFixed(L: nat)
    requires 1 <= L <= 9
    ensures NextCode(FixedLiteral(), L) == if L <= 7 then 0 else if L == 8 then 48 else 400
  {
    if L > 1 {
      NextFixed(L - 1);
      assert FixedLiteral()[..288] == FixedLiteral();
      CountFixed(288, L - 1);
    }
  }

  /** The canonical codes of the lengths of the fixed code are the codes that section
      3.2.6 lists. */
  lemma FixedCodeIs(s: nat)
    requires s < 288
    ensures (FixedLiteral()[s], Code(FixedLiteral(), s)) == FixedCode(s)
  {
    hide NextCode, Count;
    NextFixed(FixedLiteral()[s]);
    CountFixed(s, FixedLiteral()[s]);
  }

  lemma {:induction false} CountFives(n: nat, L: nat)
    requires n <= 30
    ensures Count(FixedDistance()[..n], L) == if L == 5 then n else 0
  {
    if n > 0 {
      CountFives(n - 1, L);
      CountPrefix(FixedDistance(), n - 1, L);
    }
  }

  /** A fixed distance code is the symbol in five bits. */
  lemma FixedDistanceIs(s: nat)
    requires s < 30
    ensures (FixedDistance()[s], Code(FixedDistance(), s)) == (5, s)
  {
    hide NextCode, Count;
    var d := FixedDistance();
    assert d[..30] == d;
    forall L | 0 < L < 5
      ensures Count(d, L) == 0
    {
      CountFives(30, L);
    }
    NextCodeOver(d, 0, 5);
    CountFives(s, 5);
  }

  // ----- blocks -----

  /** A block for the data up to `to`. */
  datatype Written =
    | StoredBlock(to: nat, pad: seq<bit>)
    | FixedBlock(to: nat, ts: seq<Token>)
    | DynamicBlock(to: nat, ts: seq<Token>, h: Header)

  function Kind(b: Written): (r: nat)
    ensures r < 4
  {
    match b case StoredBlock(_, _) => 0 case FixedBlock(_, _) => 1 case DynamicBlock(_, _, _) => 2
  }

  /** The block, after its three header bits, may be at pos and stands for the data from
      `from` on. */
  ghost predicate BlockTells(b: Written, pos: nat, data: seq<byte>, from: nat, limit: nat) {
    && from <= b.to <= |data|
    && match b
      case StoredBlock(to, pad) => PadOK(pad, pos) && to - from <= 65535
      case FixedBlock(to, ts) => TellAll(ts, data, from, to, limit, FixedLiteral(), FixedDistance())
      case DynamicBlock(to, ts, h) =>
        HeaderOK(h) && HasSymbol(h.ll, 256) && TellAll(ts, data, from, to, limit, h.ll, h.dl)
  }

  ghost function BlockBits(b: Written, pos: nat, data: seq<byte>, from: nat, limit: nat): seq<bit>
    requires BlockTells(b, pos, data, from, limit)
  {
    match b
    case StoredBlock(to, pad) => StoredBits(pad, data[from..to])
    case FixedBlock(to, ts) => TokensBits(ts, data, from, to, limit, FixedLiteral(), FixedDistance())
    case DynamicBlock(to, ts, h) => HeaderBits(h) + TokensBits(ts, data, from, to, limit, h.ll, h.dl)
  }

  lemma FixedUsable()
    ensures BothUsable(FixedLiteral(), FixedDistance())
  {
    hide Kraft, Code;
    FixedLiteralComplete();
    FixedDistanceIncomplete();
  }

  lemma HeaderUsable(h: Header)
    requires HeaderOK(h) && HasSymbol(h.ll, 256)
    ensures BothUsable(h.ll, h.dl)
  {
    hide Kraft, SpellAll;
    AcceptedKraft(h.dl);
  }

  /** A block that was written is read as the data that it stands for. */
  lemma ReadsBlock(inp: seq<byte>, b: Written, pos: nat, data: seq<byte>, from: nat, limit: nat)
    requires BlockTells(b, pos, data, from, limit) && Has(inp, pos, BlockBits(b, pos, data, from, limit))
    ensures Block(inp, Strict(limit), Kind(b), pos, data[..from])
         == Done(pos + |BlockBits(b, pos, data, from, limit)|, data[..b.to])
  {
    hide Has, TellAll, TokensBits, HeaderOK, HeaderBits, StoredBits, StoredLength, Body, DynTable, PadOK, HasSymbol,
      BothUsable, NextByte;
    match b {
      case StoredBlock(to, pad) =>
        ReadsStored(inp, pos, pad, data[from..to], data[..from]);
        assert data[..from] + data[from..to] == data[..to];
      case FixedBlock(to, ts) =>
        FixedUsable();
        ReadsTokens(inp, pos, ts, FixedLiteral(), FixedDistance(), data, from, to, limit);
      case DynamicBlock(to, ts, h) =>
        HeaderUsable(h);
        var a, c := HeaderBits(h), TokensBits(ts, data, from, to, limit, h.ll, h.dl);
        HasBoth(inp, pos, a, c);
        ReadsHeader(inp, Strict(limit), pos, h, data[..from]);
        ReadsTokens(inp, pos + |a|, ts, h.ll, h.dl, data, from, to, limit);
    }
  }

  /** Blocks for all the data from `from` on. */
  ghost predicate StreamTells(bs: seq<Written>, pos: nat, data: seq<byte>, from: nat, limit: nat) {
    && |bs| > 0 && BlockTells(bs[0], pos + 3, data, from, limit)
    && if |bs| == 1 then bs[0].to == |data|
       else StreamTells(bs[1..], pos + 3 + |BlockBits(bs[0], pos + 3, data, from, limit)|, data, bs[0].to, limit)
  }

  /** Whether the block is the last, and its kind. */
  function Head(last: bool, kind: nat): (r: seq<bit>)
    ensures |r| == 3
  {
    [if last then 1 else 0] + Value(2, kind)
  }

  ghost function StreamBits(bs: seq<Written>, pos: nat, data: seq<byte>, from: nat, limit: nat): seq<bit>
    requires StreamTells(bs, pos, data, from, limit)
    decreases |bs|
  {
    hide BlockTells, BlockBits;
    var b := BlockBits(bs[0], pos + 3, data, from, limit);
    var head := Head(|bs| == 1, Kind(bs[0]));
    if |bs| == 1 then head + b else head + b + StreamBits(bs[1..], pos + 3 + |b|, data, bs[0].to, limit)
  }

  /** A stream that was written for some data means that data. */
  lemma {:induction false} ReadsStream(inp: seq<byte>, bs: seq<Written>, pos: nat, data: seq<byte>, from: nat,
          limit: nat)
    requires StreamTells(bs, pos, data, from, limit) && from <= |data|
    requires Has(inp, pos, StreamBits(bs, pos, data, from, limit))
    ensures Blocks(inp, Strict(limit), pos, data[..from])
         == Outcome(data, End(pos + |StreamBits(bs, pos, data, from, limit)|))
    decreases |bs|
  {
    hide Has, Block, BlockTells, BlockBits, Peek, Kind;
    var b := BlockBits(bs[0], pos + 3, data, from, limit);
    HasHead(inp, pos, |bs| == 1, Kind(bs[0]));
    var head := Head(|bs| == 1, Kind(bs[0]));
    assert data[..|data|] == data;
    HasBoth(inp, pos, head, b);
    if |bs| > 1 {
      var more := StreamBits(bs[1..], pos + 3 + |b|, data, bs[0].to, limit);
      HasBoth(inp, pos, head + b, more);
      ReadsBlock(inp, bs[0], pos + 3, data, from, limit);
      ToWithin(bs[0], pos + 3, data, from, limit);
      ReadsStream(inp, bs[1..], pos + 3 + |b|, data, bs[0].to, limit);
    } else {
      ReadsBlock(inp, bs[0], pos + 3, data, from, limit);
    }
  }

  lemma ToWithin(b: Written, pos: nat, data: seq<byte>, from: nat, limit: nat)
    requires BlockTells(b, pos, data, from, limit)
    ensures from <= b.to <= |data|
  {
  }

  /** The three header bits. */
  lemma HasHead(inp: seq<byte>, pos: nat, last: bool, kind: nat)
    requires kind < 4
    ensures Has(inp, pos, Head(last, kind)) <==>
        pos + 3 <= Bits8(inp) && Peek(inp, pos, 1) == (if last then 1 else 0) && Peek(inp, pos + 1, 2) == kind
  {
    hide Has, Bit;
    Pow2Values();
    HasBoth(inp, pos, [if last then 1 else 0], Value(2, kind));
    HasOne(inp, pos, if last then 1 else 0);
    HasValue(inp, pos + 1, 2, kind);
    assert Peek(inp, pos, 1) == Bit(inp, pos);
  }
}
