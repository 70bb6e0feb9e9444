/** Shifts, masks and bit reversal on naturals, bytes as a stream of bits
    (least significant bit of each byte first, section 3.1.1 of RFC 1951), and
    the two ways of reading a run of bits as a number: `Peek` packs the first
    bit lowest (lengths, extra bits, table indices), `PeekMsb` packs the first
    bit highest (Huffman codes). */
module Bits {

  type byte = x: nat | x < 256

  function Shl(v: nat, n: nat): (r: nat)
    ensures r >= v
  {
    if n == 0 then v else 2 * Shl(v, n - 1)
  }

  function Shr(v: nat, n: nat): (r: nat)
    ensures r <= v
    decreases n
  {
    if n == 0 then v else Shr(v / 2, n - 1)
  }

  /** `v` masked to its low `n` bits. */
  function Low(v: nat, n: nat): (r: nat)
    ensures r <= v
    decreases n
  {
    if n == 0 then 0 else v % 2 + 2 * Low(v / 2, n - 1)
  }

  function Pow2(n: nat): (r: nat)
    ensures r > 0
  {
    Shl(1, n)
  }

  /** The low `n` bits of `v` in reverse order. */
  function Rev(n: nat, v: nat): (r: nat)
    decreases n
  {
    if n == 0 then 0 else Shl(v % 2, n - 1) + Rev(n - 1, v / 2)
  }

  /** Bitwise or of two naturals. */
  function Or(x: nat, y: nat): (r: nat)
    decreases x + y
  {
    if x == 0 && y == 0 then 0
    else (if x % 2 == 1 || y % 2 == 1 then 1 else 0) + 2 * Or(x / 2, y / 2)
  }

  /** Bit `i` of the stream; a position past the end reads as zero. */
  function Bit(s: seq<byte>, i: nat): (r: nat)
    ensures r < 2
  {
    if i / 8 < |s| then Shr(s[i / 8], i % 8) % 2 else 0
  }

  function Peek(s: seq<byte>, pos: nat, n: nat): (r: nat)
    decreases n
  {
    if n == 0 then 0 else Bit(s, pos) + 2 * Peek(s, pos + 1, n - 1)
  }

  function PeekMsb(s: seq<byte>, pos: nat, n: nat): (r: nat)
  {
    if n == 0 then 0 else 2 * PeekMsb(s, pos, n - 1) + Bit(s, pos + n - 1)
  }

  // ----- shifts -----

  lemma {:induction false} ShlAdd(v: nat, w: nat, n: nat)
    ensures Shl(v + w, n) == Shl(v, n) + Shl(w, n)
  {
    if n > 0 { ShlAdd(v, w, n - 1); }
  }

  lemma {:induction false} ShlShl(v: nat, m: nat, n: nat)
    ensures Shl(Shl(v, m), n) == Shl(v, m + n)
    decreases n
  {
    if n > 0 { ShlShl(v, m, n - 1); }
  }

  lemma ShlDouble(v: nat, n: nat)
    ensures Shl(2 * v, n) == Shl(v, n + 1)
  {
    ShlShl(v, 1, n);
    assert Shl(v, 1) == 2 * v;
  }

  lemma {:induction false} ShlZero(n: nat)
    ensures Shl(0, n) == 0
  {
    if n > 0 { ShlZero(n - 1); }
  }

  lemma {:induction false} ShlMono(v: nat, w: nat, n: nat)
    ensures v <= w <==> Shl(v, n) <= Shl(w, n)
  {
    if n > 0 { ShlMono(v, w, n - 1); }
  }

  lemma ShlInjective(v: nat, w: nat, n: nat)
    ensures v == w <==> Shl(v, n) == Shl(w, n)
  {
    ShlMono(v, w, n);
    ShlMono(w, v, n);
  }

  lemma ShlCompare(x: nat, g: nat, n: nat)
    ensures Shl(x, n) > Pow2(g + n) <==> x > Pow2(g)
    ensures Shl(x, n) == Pow2(g + n) <==> x == Pow2(g)
  {
    ShlShl(1, g, n);
    ShlMono(x, Pow2(g), n);
    ShlMono(Pow2(g), x, n);
  }

  lemma {:induction false} Pow2Mono(m: nat, n: nat)
    requires m <= n
    ensures Pow2(m) <= Pow2(n)
    ensures m < n ==> 2 * Pow2(m) <= Pow2(n)
    decreases n
  {
    if m < n { Pow2Mono(m, n - 1); }
  }

  lemma Pow2Values()
    ensures Pow2(0) == 1 && Pow2(1) == 2 && Pow2(2) == 4 && Pow2(3) == 8 && Pow2(4) == 16
    ensures Pow2(5) == 32 && Pow2(6) == 64 && Pow2(7) == 128 && Pow2(8) == 256
    ensures Pow2(9) == 512 && Pow2(10) == 1024 && Pow2(11) == 2048 && Pow2(12) == 4096
    ensures Pow2(13) == 8192 && Pow2(14) == 16384 && Pow2(15) == 32768 && Pow2(16) == 65536
  {
    assert Pow2(3) == 8;
    assert Pow2(6) == 64;
    assert Pow2(9) == 512;
    assert Pow2(12) == 4096;
    assert Pow2(14) == 16384;
  }

  lemma {:induction false} ShrAdd(v: nat, m: nat, n: nat)
    ensures Shr(v, m + n) == Shr(Shr(v, m), n)
    decreases m
  {
    if m > 0 { ShrAdd(v / 2, m - 1, n); }
  }

  // ----- masks -----

  lemma {:induction false} LowBound(v: nat, n: nat)
    ensures Low(v, n) < Pow2(n)
    decreases n
  {
    if n > 0 { LowBound(v / 2, n - 1); }
  }

  lemma {:induction false} LowShr(v: nat, n: nat)
    ensures v == Low(v, n) + Shl(Shr(v, n), n)
    decreases n
  {
    if n > 0 { LowShr(v / 2, n - 1); }
  }

  lemma {:induction false} LowSmall(v: nat, n: nat)
    requires v < Pow2(n)
    ensures Low(v, n) == v && Shr(v, n) == 0
    decreases n
  {
    if n > 0 { LowSmall(v / 2, n - 1); }
  }

  lemma {:induction false} LowLow(v: nat, m: nat, n: nat)
    requires m <= n
    ensures Low(Low(v, n), m) == Low(v, m)
    decreases m
  {
    if m > 0 { LowLow(v / 2, m - 1, n - 1); }
  }

  /** m + n low bits are the low m bits below the next n bits. */
  lemma {:induction false} LowSplit(v: nat, m: nat, n: nat)
    ensures Low(v, m + n) == Low(v, m) + Shl(Low(Shr(v, m), n), m)
    decreases m
  {
    if m > 0 { LowSplit(v / 2, m - 1, n); }
  }

  /** Joining a low part and a high part is undone by mask and shift. */
  lemma {:induction false} LowJoin(a: nat, x: nat, n: nat)
    requires a < Pow2(n)
    ensures Low(a + Shl(x, n), n) == a && Shr(a + Shl(x, n), n) == x
    decreases n
  {
    if n > 0 {
      LowJoin(a / 2, x, n - 1);
      assert (a + Shl(x, n)) / 2 == a / 2 + Shl(x, n - 1);
    }
  }

  // ----- reading bits -----

  lemma {:induction false} PeekBound(s: seq<byte>, pos: nat, n: nat)
    ensures Peek(s, pos, n) < Pow2(n)
    decreases n
  {
    if n > 0 { PeekBound(s, pos + 1, n - 1); }
  }

  /** Masking and shifting a run of stream bits gives shorter runs. */
  lemma {:induction false} PeekCut(s: seq<byte>, pos: nat, m: nat, n: nat)
    ensures Low(Peek(s, pos, m + n), m) == Peek(s, pos, m)
    ensures Shr(Peek(s, pos, m + n), m) == Peek(s, pos + m, n)
    decreases m
  {
    if m > 0 {
      PeekCut(s, pos + 1, m - 1, n);
      assert Peek(s, pos, m + n) / 2 == Peek(s, pos + 1, m - 1 + n);
    }
  }

  lemma {:induction false} PeekWithin(s: seq<byte>, i: nat, j: nat)
    requires i < |s| && j <= 8
    ensures Peek(s, 8 * i + j, 8 - j) == Shr(s[i], j)
    decreases 8 - j
  {
    if j == 8 {
      Pow2Values();
      LowSmall(s[i], 8);
    } else {
      PeekWithin(s, i, j + 1);
      assert (8 * i + j) / 8 == i && (8 * i + j) % 8 == j;
      ShrAdd(s[i], j, 1);
      assert Shr(Shr(s[i], j), 1) == Shr(s[i], j) / 2;
    }
  }

  lemma PeekByte(s: seq<byte>, i: nat)
    requires i < |s|
    ensures Peek(s, 8 * i, 8) == s[i]
  {
    PeekWithin(s, i, 0);
  }

  lemma {:induction false} OrZero(y: nat)
    ensures Or(0, y) == y && Or(y, 0) == y
    decreases y
  {
    if y > 0 { OrZero(y / 2); }
  }

  lemma OrHalf(x: nat, y: nat)
    ensures Or(x, y) == (if x % 2 == 1 || y % 2 == 1 then 1 else 0) + 2 * Or(x / 2, y / 2)
  {
  }

  /** Loading a byte over bits that are already a preview of that byte changes
      nothing: this is why stale bits above the bit count are harmless. */
  lemma PeekHalf(s: seq<byte>, pos: nat, n: nat)
    requires n > 0
    ensures Peek(s, pos, n) / 2 == Peek(s, pos + 1, n - 1) && Peek(s, pos, n) % 2 == Bit(s, pos)
  {
    hide Bit;
  }

  lemma ShlHalf(x: nat, k: nat)
    requires k > 0
    ensures Shl(x, k) / 2 == Shl(x, k - 1) && Shl(x, k) % 2 == 0
  {
  }

  lemma {:induction false} OrPeek(s: seq<byte>, pos: nat, K: nat, k: nat, n: nat)
    requires k <= K
    ensures Or(Peek(s, pos, K), Shl(Peek(s, pos + k, n), k))
         == Peek(s, pos, if K > k + n then K else k + n)
    decreases K
  {
    hide Or, Bit;
    if k == 0 {
      OrOverlap(s, pos, K, n);
    } else {
      OrPeek(s, pos + 1, K - 1, k - 1, n);
      OrHalf(Peek(s, pos, K), Shl(Peek(s, pos + k, n), k));
      PeekHalf(s, pos, K);
      PeekHalf(s, pos, if K > k + n then K else k + n);
      ShlHalf(Peek(s, pos + k, n), k);
    }
  }

  lemma {:induction false} OrOverlap(s: seq<byte>, pos: nat, m: nat, n: nat)
    ensures Or(Peek(s, pos, m), Peek(s, pos, n)) == Peek(s, pos, if m > n then m else n)
    decreases m + n
  {
    hide Or, Bit;
    if m == 0 || n == 0 {
      OrZero(Peek(s, pos, m + n));
    } else {
      OrOverlap(s, pos + 1, m - 1, n - 1);
      OrHalf(Peek(s, pos, m), Peek(s, pos, n));
      PeekHalf(s, pos, m);
      PeekHalf(s, pos, n);
    }
  }

  // ----- bit reversal -----

  lemma {:induction false} RevBound(n: nat, v: nat)
    ensures Rev(n, v) < Pow2(n)
    decreases n
  {
    if n > 0 {
      RevBound(n - 1, v / 2);
      ShlMono(v % 2, 1, n - 1);
    }
  }

  /** Reversing m + n bits puts the reversed low m bits on top. */
  lemma {:induction false} RevSplit(m: nat, n: nat, v: nat)
    ensures Rev(m + n, v) == Shl(Rev(m, v), n) + Rev(n, Shr(v, m))
    decreases m
  {
    if m == 0 {
      ShlZero(n);
    } else {
      RevSplit(m - 1, n, v / 2);
      ShlAdd(Shl(v % 2, m - 1), Rev(m - 1, v / 2), n);
      ShlShl(v % 2, m - 1, n);
      assert m - 1 + n == m + n - 1;
    }
  }

  /** Only the low n bits matter. */
  lemma {:induction false} RevLow(m: nat, n: nat, v: nat)
    requires m <= n
    ensures Rev(m, Low(v, n)) == Rev(m, v)
    decreases m
  {
    if m > 0 { RevLow(m - 1, n - 1, v / 2); }
  }

  /** Reversal is injective on n-bit numbers. */
  lemma {:induction false} RevInjective(n: nat, v: nat, w: nat)
    requires Rev(n, v) == Rev(n, w)
    ensures Low(v, n) == Low(w, n)
    decreases n
  {
    if n > 0 {
      RevBound(n - 1, v / 2);
      RevBound(n - 1, w / 2);
      ShlZero(n - 1);
      assert v % 2 == w % 2 by {
        assert v % 2 == 0 || v % 2 == 1;
        assert w % 2 == 0 || w % 2 == 1;
      }
      RevInjective(n - 1, v / 2, w / 2);
    }
  }

  lemma RevOneMore(n: nat, v: nat)
    ensures Rev(n + 1, v) == 2 * Rev(n, Low(v, n)) + Shr(v, n) % 2
  {
    RevSplit(n, 1, v);
    RevLow(n, n, v);
    assert Rev(1, Shr(v, n)) == Shr(v, n) % 2;
  }

  /** A Huffman code read in stream order is the reversal of the same bits
      read as a table index. */
  lemma {:induction false} PeekMsbIsRev(s: seq<byte>, pos: nat, n: nat)
    ensures PeekMsb(s, pos, n) == Rev(n, Peek(s, pos, n))
  {
    hide Rev, Or, Low, Shr;
    if n == 0 {
      RevBound(0, Peek(s, pos, 0));
      assert Pow2(0) == 1;
    } else {
      PeekMsbIsRev(s, pos, n - 1);
      PeekCut(s, pos, n - 1, 1);
      RevOneMore(n - 1, Peek(s, pos, n));
      assert Peek(s, pos + n - 1, 1) == Bit(s, pos + n - 1);
    }
  }
}
