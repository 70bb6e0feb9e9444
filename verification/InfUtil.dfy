/** infutil.h and infutil.c: the bit buffer over the input and the circular
    window over the output.  The macros that load, update and store copies of
    this state are method calls on the objects that hold it. */
module InfUtil {
  import opened Bits
  import opened Adler

  const Z_OK := 0
  const Z_STREAM_END := 1
  const Z_NEED_DICT := 2
  const Z_STREAM_ERROR := -2
  const Z_DATA_ERROR := -3
  const Z_BUF_ERROR := -5

  predicate Going(r: int) { r == Z_OK || r == Z_BUF_ERROR }

  /** next_in, avail_in, bitb and bitk.  The input is one sequence; a call may
      read up to `p + n`, and unused bytes are given back by moving p back. */
  class BitInput {
    const input: seq<byte>
    var p: nat
    var n: nat
    var b: nat
    var k: nat
    /** How many stream bits b really holds; those above k are stale. */
    ghost var K: nat

    /** b is a preview of the next K >= k stream bits, within 32. */
    ghost predicate Valid()
      reads this
    {
      && p + n <= |input| && k <= 8 * p && k <= K <= 32 && b == Peek(input, 8 * p - k, K)
    }

    /** The position of the next unused bit. */
    ghost function Pos(): (r: nat)
      requires Valid()
      reads this
      ensures r <= 8 * |input|
    {
      8 * p - k
    }

    lemma Sized()
      requires Valid()
      ensures p + n <= |input| && k <= K <= 32 && k <= 8 * p && Pos() == 8 * p - k
    {
    }

    constructor (input: seq<byte>)
      ensures Valid() && this.input == input && p == 0 && n == 0 && k == 0 && K == 0
    {
      this.input := input;
      p, n, b, k, K := 0, 0, 0, 0, 0;
    }

    /** avail_in, as the caller sets it. */
    method Given(n: nat)
      requires Valid() && p + n <= |input|
      modifies this`n
      ensures Valid() && Pos() == old(Pos()) && this.n == n
    {
      this.n := n;
    }

    /** b |= NEXTBYTE << k */
    method LoadByte()
      requires Valid() && n > 0 && k <= 24
      modifies this
      ensures Valid() && Pos() == old(Pos())
      ensures k == old(k) + 8 && p == old(p) + 1 && n == old(n) - 1
    {
      hide Peek, Or, Shl;
      OrPeek(input, 8 * p - k, K, k, 8);
      PeekByte(input, p);
      b := Or(b, Shl(input[p], k));
      K := if K > k + 8 then K else k + 8;
      p, n, k := p + 1, n - 1, k + 8;
    }

    /** NEEDBITS(j), with the status it leaves behind. */
    method Need(j: nat, r0: int) returns (ok: bool, r: int)
      requires Valid() && (j <= 24 || (j <= 32 && Whole(k)))
      modifies this
      ensures Valid() && Pos() == old(Pos()) && p + n == old(p + n) && p >= old(p)
      ensures ok ==> j <= k && (k == old(k) || k < j + 8) && (j <= 24 || k <= 32)
      ensures !ok ==> n == 0 && k < j
      ensures old(Whole(k)) ==> Whole(k)
      ensures Going(r0) ==> Going(r)
    {
      hide Peek;
      r := r0;
      while k < j
        invariant Valid() && Pos() == old(Pos()) && p + n == old(p + n) && p >= old(p)
        invariant old(Whole(k)) ==> Whole(k)
        invariant k == old(k) || k < j + 8
        invariant Going(r0) ==> Going(r)
        decreases n
      {
        if n == 0 { return false, r; }
        r := Z_OK;
        LoadByte();
      }
      ok := true;
    }

    /** (uInt)b & mask[j] */
    method Low(j: nat) returns (v: nat)
      requires Valid() && j <= k
      ensures v == Peek(input, Pos(), j)
    {
      hide Peek, Bits.Low, Shr;
      PeekCut(input, 8 * p - k, j, K - j);
      v := Bits.Low(b, j);
    }

    /** DUMPBITS(j) */
    method Dump(j: nat)
      requires Valid() && j <= k
      modifies this
      ensures Valid() && Pos() == old(Pos()) + j
      ensures k == old(k) - j && p == old(p) && n == old(n)
    {
      hide Peek, Bits.Low, Shr;
      PeekCut(input, 8 * p - k, j, K - j);
      b := Shr(b, j);
      k, K := k - j, K - j;
    }

    /** b & 0xffff and (b >> 16) & 0xffff, of a full buffer. */
    method Halves() returns (lo: nat, hi: nat)
      requires Valid() && k == 32
      ensures lo == Peek(input, Pos(), 16) && hi == Peek(input, Pos() + 16, 16)
    {
      hide Peek, Bits.Low, Shr;
      PeekCut(input, Pos(), 16, 16);
      PeekBound(input, Pos() + 16, 16);
      lo, hi := Bits.Low(b, 16), Bits.Low(Shr(b, 16), 16);
      LowSmall(Shr(b, 16), 16);
    }

    /** b = k = 0 */
    method Clear()
      requires Valid()
      modifies this
      ensures Valid() && Pos() == old(Pos()) + old(k) && k == 0 && K == 0 && p == old(p) && n == old(n)
    {
      b, k, K := 0, 0, 0;
    }

    /** NEXTBYTE of inflate.c, which reads past the bit buffer. */
    method NextByte() returns (x: byte)
      requires Valid() && K == 0 && n > 0
      modifies this
      ensures Valid() && Pos() == old(Pos()) + 8 && k == 0 && K == 0 && p == old(p) + 1 && n == old(n) - 1
      ensures p <= |input| && x == input[old(p)]
    {
      x := input[p];
      p, n := p + 1, n - 1;
    }

    /** p += t; n -= t, with no bits in the buffer. */
    method Skip(t: nat)
      requires Valid() && K == 0 && t <= n
      modifies this
      ensures Valid() && Pos() == old(Pos()) + 8 * t && k == 0 && K == 0 && p == old(p) + t && n == old(n) - t
    {
      p, n := p + t, n - t;
    }

    /** Give back c bytes that are still whole in the bit buffer. */
    method GiveBack(c: nat)
      requires Valid() && 8 * c <= k
      modifies this
      ensures Valid() && Pos() == old(Pos())
      ensures k == old(k) - 8 * c && p == old(p) - c && n == old(n) + c
    {
      p, n, k := p - c, n + c, k - 8 * c;
    }
  }

  /** k bits are whole bytes. */
  predicate Whole(k: nat) { k == 0 || k == 8 || k == 16 || k == 24 || k == 32 }

  /** Where the byte written i bytes ago is, with the write position at q. */
  function Index(q: nat, size: nat, i: nat): (x: nat)
    requires 1 <= i <= size && q <= size
    ensures x < size
  {
    if i <= q then q - i else q + size - i
  }

  /** The window holds the last `size` bytes of the history. */
  ghost predicate Mirrors(window: seq<byte>, q: nat, hist: seq<byte>)
    requires q <= |window| <= |hist|
  {
    forall i :: 1 <= i <= |window| ==> MirrorsAt(window, q, hist, i)
  }

  ghost predicate MirrorsAt(window: seq<byte>, q: nat, hist: seq<byte>, i: nat)
    requires q <= |window| <= |hist| && 1 <= i <= |window|
  {
    window[Index(q, |window|, i)] == hist[|hist| - i]
  }

  lemma MirrorPut(window: seq<byte>, q: nat, hist: seq<byte>, x: byte)
    requires q < |window| <= |hist| && Mirrors(window, q, hist)
    ensures Mirrors(window[q := x], q + 1, hist + [x])
  {
    var w, q', h := window[q := x], q + 1, hist + [x];
    forall i | 1 <= i <= |w|
      ensures MirrorsAt(w, q', h, i)
    {
      if i > 1 { assert MirrorsAt(window, q, hist, i - 1); }
    }
  }

  lemma MirrorWrap(window: seq<byte>, hist: seq<byte>)
    requires |window| <= |hist| && Mirrors(window, |window|, hist)
    ensures Mirrors(window, 0, hist)
  {
    forall i | 1 <= i <= |window|
      ensures MirrorsAt(window, 0, hist, i)
    {
      assert MirrorsAt(window, |window|, hist, i);
    }
  }

  /** A stretch of the window is a stretch of the history. */
  lemma MirrorSlice(window: seq<byte>, q: nat, hist: seq<byte>, from: nat, n: nat, at: nat)
    requires q <= |window| <= |hist| && Mirrors(window, q, hist) && from + n <= |window| && at + n <= |hist|
    requires if from < q then from + n <= q && |hist| - at == q - from else |hist| - at == q + |window| - from
    ensures window[from..from + n] == hist[at..at + n]
  {
    var a, b := window[from..from + n], hist[at..at + n];
    forall j | 0 <= j < n
      ensures a[j] == b[j]
    {
      assert MirrorsAt(window, q, hist, |hist| - (at + j));
    }
  }

  /** Delivering n bytes from the read position delivers the next n bytes of
      the history. */
  lemma Delivered(window: seq<byte>, q: nat, hist: seq<byte>, read: nat, n: nat, out: seq<byte>)
    requires q <= |window| <= |hist| && Mirrors(window, q, hist) && read + n <= |window|
    requires |window| + |out| + n <= |hist| && hist[|window|..|window| + |out|] == out
    requires n > 0 ==> if read < q then read + n <= q && |hist| - |window| - |out| == q - read
                                   else |hist| - |window| - |out| == q + |window| - read
    ensures hist[|window|..|window| + |out| + n] == out + window[read..read + n]
  {
    var at := |window| + |out|;
    if n > 0 { MirrorSlice(window, q, hist, read, n, at); }
    assert hist[|window|..at + n] == hist[|window|..at] + hist[at..at + n];
  }

  /** window, end, read, write and check, with next_out and avail_out: bytes
      are written to the window, and leave it for `out` in the same order. */
  class SlidingWindow {
    const size: nat
    const window: array<byte>
    const checked: bool
    var read: nat
    var write: nat
    var availOut: nat
    var out: seq<byte>
    var check: nat
    /** What the window held at first, then everything written to it. */
    ghost var hist: seq<byte>
    ghost const start: seq<byte>
    /** How much will have been delivered when the room is used up. */
    ghost var given: nat

    /** Bytes written and not yet delivered. */
    ghost function Pending(): (r: nat)
      requires write <= size && read <= size
      reads this
    {
      if read <= write then write - read else size - read + write
    }

    ghost predicate Valid()
      reads this, window
    {
      && 0 < size == window.Length == |start|
      && read < size && write <= size && Pending() <= size
      && |hist| == size + |out| + Pending()
      && start <= hist
      && hist[size..size + |out|] == out && |out| + availOut == given
      && Mirrors(window[..], write, hist)
      && (checked ==> check < 0x1_0000_0000 && Unpack(check) == Checksum(START, out))
    }

    lemma Sized()
      requires Valid()
      ensures 0 < size <= |hist| && write <= size && read < size
    {
    }

    lemma Room()
      requires Valid()
      ensures availOut + |out| == given
    {
      hide Mirrors, Checksum;
    }

    /** Every byte of the output is in the history, in order. */
    lemma OutInHist()
      requires Valid()
      ensures start + out <= hist && |start| == size
      ensures read == write ==> hist == start + out
    {
      assert hist[..size] == start;
      assert hist[..size + |out|] == hist[..size] + hist[size..size + |out|];
    }

    /** The check value is that of exactly what has been delivered. */
    lemma Checked()
      requires Valid() && checked
      ensures check == Checksum(START, out).Word()
    {
      hide Mirrors, Checksum;
    }

    constructor (window: array<byte>, checked: bool)
      requires 0 < window.Length
      ensures Valid() && this.window == window && this.checked == checked && size == window.Length
      ensures start == window[..] && hist == start && out == [] && availOut == 0 && read == write == 0
    {
      this.window, this.size, this.checked := window, window.Length, checked;
      read, write, availOut, out, given := 0, 0, 0, [], 0;
      check := 1;
      start, hist := window[..], window[..];
    }

    /** avail_out, as the caller sets it. */
    method Given(room: nat)
      requires Valid()
      modifies this`availOut, this`given
      ensures Valid() && availOut == room && given == |out| + room
    {
      availOut, given := room, |out| + room;
    }

    /** WAVAIL: the locals m and q always satisfy m == Avail() and q == write. */
    function Avail(): (m: nat)
      requires write <= size && read < size
      reads this
    {
      if write < read then read - write - 1 else size - write
    }

    /** WRAP */
    method Wrap()
      requires Valid()
      modifies `write
      ensures Valid()
      ensures write == if old(write) == size && read != 0 then 0 else old(write)
    {
      if write == size && read != 0 {
        MirrorWrap(window[..], hist);
        write := 0;
      }
    }

    /** OUTBYTE: store one byte over the oldest one, which has been delivered. */
    method OutByte(x: byte)
      requires Valid() && Avail() > 0
      modifies this`write, this`hist, window
      ensures Valid() && hist == old(hist) + [x] && write == old(write) + 1 && Avail() == old(Avail()) - 1
    {
      MirrorPut(window[..], write, hist, x);
      ghost var w := window[..][write := x];
      window[write] := x;
      assert window[..] == w;
      hist := hist + [x];
      write := write + 1;
    }

    /** memcpy(q, p, t), q += t, for bytes the window has room for. */
    method Put(s: seq<byte>)
      requires Valid() && |s| <= Avail()
      modifies this`write, this`hist, window
      ensures Valid() && hist == old(hist) + s && write == old(write) + |s| <= size && Avail() == old(Avail()) - |s|
    {
      hide SlidingWindow.Valid, Mirrors;
      Sized();
      var i := 0;
      while i < |s|
        invariant i <= |s| && Valid() && write == old(write) + i <= size && read < size && Avail() == old(Avail()) - i
        invariant hist == old(hist) + s[..i]
      {
        assert s[..i + 1] == s[..i] + [s[i]];
        OutByte(s[i]);
        Sized();
        i := i + 1;
      }
      assert s[..i] == s;
    }

    /** The check value once `piece` is delivered too. */
    method CheckPiece(piece: seq<byte>) returns (c: nat)
      requires checked ==> check < 0x1_0000_0000 && Unpack(check) == Checksum(START, out)
      ensures checked ==> c < 0x1_0000_0000 && Unpack(c) == Checksum(START, out + piece)
    {
      hide Checksum, Unpack;
      c := check;
      if checked {
        c := Adler32(check, piece);
        AdlerConcat(START, out, piece);
      }
    }

    /** One of the two copies of zlib_inflate_flush: from the read pointer up to
        `end`, as far as the caller has room. */
    method Drain(end: nat, r0: int) returns (r: int)
      requires Valid() && read <= end <= size && (if read <= write then end == write else end == size)
      modifies this`read, this`write, this`availOut, this`out, this`check
      ensures read <= end
        && end - read == (if end - old(read) <= old(availOut) then 0 else end - old(read) - old(availOut))
      ensures r == (if read > old(read) && r0 == Z_BUF_ERROR then Z_OK else r0)
      ensures write == old(write) && availOut == old(availOut) - (read - old(read))
      ensures |hist| == size + |out| + (end - read) + (if old(read) <= write then 0 else write)
      ensures hist[size..size + |out|] == out && old(out) <= out
      ensures checked ==> check < 0x1_0000_0000 && Unpack(check) == Checksum(START, out)
    {
      hide Mirrors, Checksum, Unpack;
      r := r0;
      var n := end - read;
      if n > availOut { n := availOut; }
      if n > 0 && r == Z_BUF_ERROR { r := Z_OK; }
      availOut := availOut - n;
      var piece := window[read..read + n];
      Delivered(window[..], write, hist, read, n, out);
      assert window[..][read..read + n] == piece;
      check := CheckPiece(piece);
      out := out + piece;
      read := read + n;
    }

    /** zlib_inflate_flush: deliver as much of the window as there is room for,
        first up to its end, then from its beginning. */
    method Flush(r0: int) returns (r: int)
      requires Valid()
      modifies this`read, this`write, this`availOut, this`out, this`check
      ensures Valid()
      ensures |out| == old(|out|) + (if old(availOut) < old(Pending()) then old(availOut) else old(Pending()))
      ensures old(out) <= out && availOut == old(availOut) - (|out| - |old(out)|)
      ensures r == (if |out| > |old(out)| && r0 == Z_BUF_ERROR then Z_OK else r0)
      ensures read == write <==> Pending() == 0
      ensures write <= size && read < size && Pending() == old(Pending()) - (|out| - |old(out)|)
      ensures write == old(write) || (write == 0 && old(write) == size)
    {
      r := Drain(if read <= write then write else size, r0);
      if read == size {
        read := 0;
        if write == size {
          MirrorWrap(window[..], hist);
          write := 0;
        }
        r := Drain(write, r);
      }
    }

    /** NEEDOUT: make room for one byte at least, or fail because neither the
        window nor the caller has any. */
    method NeedOut(r0: int) returns (ok: bool, r: int)
      requires Valid()
      modifies this`read, this`write, this`availOut, this`out, this`check
      ensures Valid() && old(out) <= out
      ensures write <= size && read < size
      ensures ok ==> Avail() > 0 && r == Z_OK
      ensures !ok ==> availOut == 0
      ensures Going(r0) ==> Going(r)
      ensures write == old(write) || write + size == old(write)
    {
      r := r0;
      if Avail() == 0 {
        Wrap();
        if Avail() == 0 {
          r := Flush(r);
          Wrap();
          if Avail() == 0 { return false, r; }
        }
      }
      return true, Z_OK;
    }

    /** The source of a copy from `dist` bytes back, forced into the window. */
    method SourceOf(dist: nat) returns (f: nat)
      requires Valid() && 0 < dist
      ensures write <= size && f == Index(write, size, Back(dist, size))
    {
      hide Mirrors;
      var g: int := write - dist;
      ghost var d: int := dist;
      while g < 0
        invariant (0 < d <= dist && g == write - d && Back(d, size) == Back(dist, size))
          || g == Index(write, size, Back(dist, size))
        decreases -g
      {
        g := g + size;
        d := d - size;
      }
      f := g;
    }

    /** OUTBYTE(*f++), with f wrapping at the end of the window: the byte d back. */
    method CopyByte(f0: nat, ghost d: nat) returns (f: nat)
      requires Valid() && Avail() > 0 && 1 <= d <= size && f0 == Index(write, size, d)
      modifies this`write, this`hist, window
      ensures Valid() && hist == old(hist) + [old(hist[|hist| - d])]
      ensures write == old(write) + 1 <= size && Avail() == old(Avail()) - 1
      ensures f == Index(write, size, d)
    {
      assert MirrorsAt(window[..], write, hist, d);
      OutByte(window[f0]);
      f := f0 + 1;
      if f == size { f := 0; }
    }
  }

  /** A distance reduced to one inside the window. */
  function Back(dist: nat, size: nat): (d: nat)
    requires 0 < dist && 0 < size
    ensures 0 < d <= size && d <= dist
    ensures dist <= size ==> d == dist
  {
    if dist <= size then dist else Back(dist - size, size)
  }
}
