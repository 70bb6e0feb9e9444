/** Whole streams from the writer's side (section 2.2 of RFC 1950): two header bytes, the
    blocks, and the checksum.  Whatever is written so is decompressed to the data it was
    written for; and what the decompressor finishes was written so. */
module Zlib {
  import opened Bits
  import opened Adler
  import opened InfUtil
  import opened Deflate
  import opened Writer
  import opened Reader
  import Inflate
  import Format

  // ----- the header -----

  /** CMF: method 8 in the low four bits, the logarithm of the window size less 8 above. */
  function Cmf(cinfo: nat): nat { 8 + 16 * cinfo }

  /** FLG without a dictionary: check bits in the low five bits, the level above bit 5. */
  function Flg(level: nat, check: nat): nat { 64 * level + check }

  ghost predicate Multiple(n: nat, k: nat) { n == 31 * k }

  ghost predicate Checked(n: nat) { exists k: nat :: Multiple(n, k) }

  lemma CheckedIs(n: nat)
    ensures Checked(n) <==> n % 31 == 0
  {
    if n % 31 == 0 { assert Multiple(n, n / 31); }
  }

  /** The two bytes are such a header, for a window of no more than 2^wbits bytes, and as a
      number are a multiple of 31. */
  ghost predicate HeaderIs(cmf: nat, flg: nat, wbits: nat, cinfo: nat, level: nat, check: nat) {
    && cmf == Cmf(cinfo) && cinfo + 8 <= wbits
    && flg == Flg(level, check) && level < 4 && check < 32
    && Checked(256 * cmf + flg)
  }

  lemma CmfIs(cmf: nat, cinfo: nat)
    ensures cmf == Cmf(cinfo) <==> cmf % 16 == 8 && cmf / 16 == cinfo
  {
  }

  lemma FlgIs(flg: byte)
    ensures flg / 32 % 2 == 0 ==> flg == Flg(flg / 64, flg % 64) && flg / 64 < 4 && flg % 64 < 32
    ensures forall level: nat, check: nat :: level < 4 && check < 32 && flg == Flg(level, check) ==> flg / 32 % 2 == 0
  {
  }

  /** The header is accepted if and only if it is one that a writer may send. */
  lemma HeaderAccepted(inp: seq<byte>, wbits: nat)
    requires |inp| >= 2
    ensures Inflate.InData(inp, false, wbits)
       <==> exists cinfo: nat, level: nat, check: nat :: HeaderIs(inp[0], inp[1], wbits, cinfo, level, check)
  {
    hide Checked, Cmf, Flg;
    var cmf: nat, flg: nat := inp[0], inp[1];
    FlgIs(flg);
    CheckedIs(256 * cmf + flg);
    CmfIs(cmf, cmf / 16);
    if Inflate.InData(inp, false, wbits) {
      assert HeaderIs(cmf, flg, wbits, cmf / 16, flg / 64, flg % 64);
    }
    if cinfo: nat, level: nat, check: nat :| HeaderIs(cmf, flg, wbits, cinfo, level, check) {
      CmfIs(cmf, cinfo);
    }
  }

  // ----- the trailer -----

  /** The checksum, the most significant byte first. */
  function Trailer(w: nat): (r: seq<byte>)
    requires w < 0x1_0000_0000
    ensures |r| == 4
  {
    [w / 0x100_0000, w / 0x1_0000 % 256, w / 256 % 256, w % 256]
  }

  lemma TrailerIs(inp: seq<byte>, at: nat, w: nat)
    requires at + 4 <= |inp| && w < 0x1_0000_0000
    ensures Inflate.BigEndian(inp, at, 4) == w <==> inp[at..at + 4] == Trailer(w)
  {
    BytesOf(inp[at], inp[at + 1], inp[at + 2], inp[at + 3], w);
    var s := inp[at..at + 4];
    assert s == [inp[at], inp[at + 1], inp[at + 2], inp[at + 3]];
  }

  lemma LastByte(q: nat, d: byte, w: nat)
    ensures 256 * q + d as int == w <==> w / 256 == q && w % 256 == d
  {
  }

  lemma DivTwice(w: nat)
    ensures w / 0x1_0000 == w / 256 / 256 && w / 0x100_0000 == w / 0x1_0000 / 256
  {
  }

  lemma BytesOf(a: byte, b: byte, c: byte, d: byte, w: nat)
    ensures a as int * 16777216 + b as int * 65536 + c as int * 256 + d as int == w
       <==> (w / 0x100_0000 == a && w / 0x1_0000 % 256 == b && w / 256 % 256 == c && w % 256 == d)
  {
    var y: nat := 256 * a as int + b as int;
    var x: nat := 256 * y + c as int;
    LastByte(x, d, w);
    LastByte(y, c, w / 256);
    LastByte(a, b, w / 256 / 256);
    DivTwice(w);
  }

  ghost function Sum(data: seq<byte>): (w: nat)
    ensures w < 0x1_0000_0000
  {
    Checksum(START, data).Word()
  }

  // ----- streams -----

  /** A stream written for the data: header, blocks, and from the next byte the checksum.
      Distances reach no further than limit. */
  ghost predicate WrittenFor(inp: seq<byte>, wbits: nat, bs: seq<Written>, data: seq<byte>, limit: nat, end: nat) {
    && |inp| >= 2 && Inflate.InData(inp, false, wbits)
    && WrittenAt(inp, bs, 16, data, 0, limit, end)
    && NextByte(end) + 4 <= |inp| && inp[NextByte(end)..NextByte(end) + 4] == Trailer(Sum(data))
  }

  lemma WrittenBlocks(inp: seq<byte>, bs: seq<Written>, data: seq<byte>, limit: nat, end: nat)
    requires WrittenAt(inp, bs, 16, data, 0, limit, end)
    ensures Blocks(inp, Strict(limit), 16, []) == Outcome(data, End(end))
  {
    hide Blocks, WrittenAt;
    assert data[..0] == [];
    FinishedIsWritten(inp, 16, data, 0, limit, end);
  }

  lemma TailWritten(inp: seq<byte>, start: seq<byte>, data: seq<byte>, end: nat)
    requires NextByte(end) + 4 <= |inp| && inp[NextByte(end)..NextByte(end) + 4] == Trailer(Sum(data))
    ensures Inflate.Tail(inp, false, start, Outcome(start + data, End(end)))
         == Inflate.Result(start + data, Inflate.Finished(NextByte(end) + 4))
    ensures Format.CheckMatches(inp, Outcome(data, End(end)))
  {
    hide Inflate.BigEndian, Trailer, NextByte, Checksum;
    TrailerIs(inp, NextByte(end), Sum(data));
    assert (start + data)[|start|..] == data;
  }

  /** The meaning of a stream that was written for some data. */
  lemma WrittenMeans(inp: seq<byte>, wbits: nat, bs: seq<Written>, data: seq<byte>, start: seq<byte>, end: nat)
    requires 0 < |start| && WrittenFor(inp, wbits, bs, data, |start|, end)
    ensures Inflate.Stream(inp, false, wbits, start)
         == Inflate.Result(start + data, Inflate.Finished(NextByte(end) + 4))
  {
    hide Blocks, Inflate.InData, Trailer, Sum, WrittenAt, NextByte, Inflate.Tail, Inflate.Stream;
    WrittenBlocks(inp, bs, data, |start|, end);
    Format.SameBlocks(start, inp, 16, []);
    assert start + [] == start;
    Inflate.StreamData(inp, false, wbits, start);
    TailWritten(inp, start, data, end);
  }

  /** What the stream of a decompressor is written for. */
  ghost predicate ZlibOf(z: Inflate.Inflate, bs: seq<Written>, data: seq<byte>, end: nat) {
    !z.nowrap && WrittenFor(z.Inp(), z.wbits, bs, data, |z.win.start|, end)
  }

  /** The theorem for compressors: whatever a stream was written for, in whatever way,
      that and nothing else is delivered, and the decompressor never fails, unless a
      table outgrows its space. */
  lemma Decompressed(z: Inflate.Inflate, bs: seq<Written>, data: seq<byte>, end: nat)
    requires z.Valid() && ZlibOf(z, bs, data, end)
    ensures z.Ready() && z.Want() == Inflate.Result(z.win.start + data, Inflate.Finished(NextByte(end) + 4))
    ensures z.win.out <= data
    ensures z.mode == Inflate.I_DONE ==> z.win.out == data && z.bits.p == NextByte(end) + 4
    ensures z.mode == Inflate.I_BAD ==> z.Crowded()
  {
    hide Inflate.Inflate.Valid, WrittenFor, BitInput.Valid, SlidingWindow.Valid, NextByte, Inflate.Stream,
      Inflate.Inflate.Crowded;
    z.Delivers();
    WrittenMeans(z.Inp(), z.wbits, bs, data, z.win.start, end);
    Format.Within(z.win.start, z.win.out, data);
  }

  /** The other direction: when the decompressor finishes a wrapped stream in which no
      distance reaches too far, the stream was written for what has been delivered. */
  lemma FinishedWritten(z: Inflate.Inflate)
    requires z.Valid() && !z.nowrap && z.mode == Inflate.I_DONE && !Format.Meaning(z).stop.BadDistance?
    ensures exists bs: seq<Written>, end: nat :: ZlibOf(z, bs, z.win.out, end)
  {
    hide Inflate.Inflate.Valid, Blocks, BitInput.Valid, SlidingWindow.Valid, NextByte, Inflate.BigEndian, Trailer,
      Inflate.InData, WrittenAt, Checksum;
    DoneData(z);
    Format.Decompresses(z);
    var inp, o, data := z.Inp(), Format.Meaning(z), z.win.out;
    assert data[..0] == [];
    var limit := |z.win.start|;
    FinishedIsWritten(inp, 16, data, 0, limit, o.stop.pos);
    var bs: seq<Written> :| WrittenAt(inp, bs, 16, data, 0, limit, o.stop.pos);
    TrailerIs(inp, NextByte(o.stop.pos), Sum(data));
    assert ZlibOf(z, bs, data, o.stop.pos);
  }

  lemma DoneData(z: Inflate.Inflate)
    requires z.Valid() && !z.nowrap && z.mode == Inflate.I_DONE
    ensures |z.Inp()| >= 2 && Inflate.InData(z.Inp(), false, z.wbits)
  {
    hide BitInput.Valid, SlidingWindow.Valid, Inflate.Tail, Inflate.Data, Inflate.MethodOK, Inflate.HeaderOK,
      Inflate.HasDict;
  }

  // ----- putting a stream into bytes -----

  /** The byte that begins with these bits and goes on with zeros. */
  function ByteOf(bits: seq<bit>): (r: nat)
  {
    if bits == [] then 0 else bits[0] + 2 * ByteOf(bits[1..])
  }

  function NoBits(n: nat): (r: seq<bit>)
    ensures |r| == n
  {
    if n == 0 then [] else [0] + NoBits(n - 1)
  }

  lemma {:induction false} ZeroValue(n: nat)
    ensures Value(n, 0) == NoBits(n)
  {
    if n > 0 { ZeroValue(n - 1); }
  }

  lemma {:induction false} ByteOfIs(bits: seq<bit>, n: nat)
    requires |bits| <= n
    ensures ByteOf(bits) < Pow2(|bits|) && Value(n, ByteOf(bits)) == bits + NoBits(n - |bits|)
  {
    if bits == [] {
      ZeroValue(n);
    } else {
      ByteOfIs(bits[1..], n - 1);
      assert ByteOf(bits) / 2 == ByteOf(bits[1..]) && ByteOf(bits) % 2 == bits[0];
      assert bits == [bits[0]] + bits[1..];
    }
  }

  lemma SmallByte(bits: seq<bit>)
    requires |bits| <= 8
    ensures ByteOf(bits) < 256
  {
    ByteOfIs(bits, |bits|);
    Pow2Mono(|bits|, 8);
    Pow2Values();
  }

  /** Bits in bytes, the first bit lowest (section 3.1.1 of RFC 1951). */
  function Pack(bits: seq<bit>): (r: seq<byte>)
    ensures |bits| <= 8 * |r| < |bits| + 8
  {
    if |bits| == 0 then []
    else if |bits| <= 8 then SmallByte(bits); [ByteOf(bits)]
    else SmallByte(bits[..8]); [ByteOf(bits[..8])] + Pack(bits[8..])
  }

  lemma HasPacked(inp: seq<byte>, at: nat, bits: seq<bit>)
    requires |bits| <= 8 && at < |inp| && inp[at] == ByteOf(bits)
    ensures Has(inp, 8 * at, bits)
  {
    hide Has;
    HasByte(inp, at, inp[at]);
    ByteOfIs(bits, 8);
    HasBoth(inp, 8 * at, bits, NoBits(8 - |bits|));
  }

  lemma {:induction false} PackHas(inp: seq<byte>, at: nat, bits: seq<bit>)
    requires at + |Pack(bits)| <= |inp| && inp[at..at + |Pack(bits)|] == Pack(bits)
    ensures Has(inp, 8 * at, bits)
    decreases |bits|
  {
    hide Has, ByteOf;
    if |bits| == 0 {
      HasNone(inp, 8 * at);
      assert bits == [];
    } else if |bits| <= 8 {
      assert inp[at] == inp[at..at + 1][0];
      HasPacked(inp, at, bits);
    } else {
      var p := inp[at..at + |Pack(bits)|];
      assert inp[at] == p[0] && inp[at + 1..at + |p|] == p[1..];
      HasPacked(inp, at, bits[..8]);
      PackHas(inp, at + 1, bits[8..]);
      HasBoth(inp, 8 * at, bits[..8], bits[8..]);
      assert bits == bits[..8] + bits[8..];
    }
  }

  /** The check bits that a level asks for. */
  function CheckFor(cinfo: nat, level: nat): (r: nat)
    ensures r < 32
  {
    31 - (256 * Cmf(cinfo) + 64 * level) % 31
  }

  /** The two bytes of the header. */
  function HeaderBytes(cinfo: nat, level: nat): (r: seq<byte>)
    requires cinfo <= 7 && level < 4
    ensures |r| == 2
  {
    [Cmf(cinfo), Flg(level, CheckFor(cinfo, level))]
  }

  /** A whole stream. */
  ghost function Compress(cinfo: nat, level: nat, bs: seq<Written>, data: seq<byte>, limit: nat): (r: seq<byte>)
    requires cinfo <= 7 && level < 4 && StreamTells(bs, 16, data, 0, limit)
  {
    hide StreamTells, StreamBits, HeaderBytes, Pack, Trailer;
    HeaderBytes(cinfo, level) + Pack(StreamBits(bs, 16, data, 0, limit)) + Trailer(Sum(data))
  }

  lemma CheckForIs(cinfo: nat, level: nat)
    ensures Checked(256 * Cmf(cinfo) + Flg(level, CheckFor(cinfo, level)))
  {
    hide Checked;
    CheckedIs(256 * Cmf(cinfo) + Flg(level, CheckFor(cinfo, level)));
  }

  lemma HeaderFor(inp: seq<byte>, cinfo: nat, level: nat, wbits: nat)
    requires cinfo + 8 <= wbits && cinfo <= 7 && level < 4
    requires |inp| >= 2 && inp[0] == Cmf(cinfo) && inp[1] == Flg(level, CheckFor(cinfo, level))
    ensures Inflate.InData(inp, false, wbits)
  {
    hide Inflate.InData, Cmf, Flg, CheckFor, Checked;
    var check := CheckFor(cinfo, level);
    CheckForIs(cinfo, level);
    HeaderAccepted(inp, wbits);
    assert HeaderIs(inp[0], inp[1], wbits, cinfo, level, check);
  }

  /** Compressing in any way gives a stream that was written for the data, to its end. */
  lemma CompressWrites(cinfo: nat, level: nat, bs: seq<Written>, data: seq<byte>, limit: nat, wbits: nat)
    requires cinfo + 8 <= wbits && cinfo <= 7 && level < 4 && StreamTells(bs, 16, data, 0, limit)
    ensures var inp := Compress(cinfo, level, bs, data, limit);
      var end := 16 + |StreamBits(bs, 16, data, 0, limit)|;
      WrittenFor(inp, wbits, bs, data, limit, end) && NextByte(end) + 4 == |inp|
  {
    hide Has, StreamTells, StreamBits, Pack, Inflate.InData, Sum, Trailer, Cmf, Flg, CheckFor;
    var inp := Compress(cinfo, level, bs, data, limit);
    var bits := StreamBits(bs, 16, data, 0, limit);
    var p := Pack(bits);
    assert inp[2..2 + |p|] == p && inp[2 + |p|..2 + |p| + 4] == Trailer(Sum(data));
    PackHas(inp, 2, bits);
    HeaderFor(inp, cinfo, level, wbits);
    assert NextByte(16 + |bits|) == 2 + |p|;
  }

  /** All data can be written, if only in stored blocks. */
  lemma {:induction false} AnyData(pos: nat, data: seq<byte>, from: nat, limit: nat) returns (bs: seq<Written>)
    requires from <= |data|
    ensures StreamTells(bs, pos, data, from, limit)
    decreases |data| - from
  {
    hide StoredBits;
    var to := if |data| - from <= 65535 then |data| else from + 65535;
    var b := StoredBlock(to, NoBits(8 * NextByte(pos + 3) - (pos + 3)));
    assert BlockTells(b, pos + 3, data, from, limit);
    bs := [b];
    if to < |data| {
      var more := AnyData(pos + 3 + |BlockBits(b, pos + 3, data, from, limit)|, data, to, limit);
      bs := [b] + more;
      assert bs[1..] == more && bs[0] == b;
    }
  }
}
