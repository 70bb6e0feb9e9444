/** zutil.h: the Adler-32 checksum.  `Checksum` is the definition of section 2.2
    of RFC 1950, one byte and two reductions at a time; `Adler32` is the loop
    that reduces only once every NMAX bytes. */
module Adler {
  import opened Bits
  import opened Primes

  const BASE: nat := 65521
  const NMAX: nat := 5552

  datatype Sums = Sums(s1: nat, s2: nat) {
    predicate Reduced() { s1 < BASE && s2 < BASE }

    /** (s2 << 16) | s1 */
    function Word(): (r: nat) { s2 * 65536 + s1 }
  }

  function Add(s: Sums, x: byte): Sums {
    var s1 := (s.s1 + x) % BASE;
    Sums(s1, (s.s2 + s1) % BASE)
  }

  function Checksum(s: Sums, buf: seq<byte>): (r: Sums)
    ensures s.Reduced() ==> r.Reduced()
  {
    if |buf| == 0 then s else Add(Checksum(s, buf[..|buf| - 1]), buf[|buf| - 1])
  }

  const START := Sums(1, 0)

  /** The sums that a checksum word stands for. */
  function Unpack(adler: nat): (s: Sums)
    ensures adler < 0x1_0000_0000 ==> s.Word() == adler
  {
    Sums(adler % 65536, adler / 65536 % 65536)
  }

  lemma UnpackWord(s: Sums)
    requires s.Reduced()
    ensures Unpack(s.Word()) == s && s.Word() < 0x1_0000_0000
  {
  }

  /** Checksums compose over concatenation. */
  lemma {:induction false} AdlerConcat(s: Sums, a: seq<byte>, b: seq<byte>)
    ensures Checksum(s, a + b) == Checksum(Checksum(s, a), b)
  {
    if |b| == 0 {
      assert a + b == a;
    } else {
      AdlerConcat(s, a, b[..|b| - 1]);
      assert (a + b)[..|a + b| - 1] == a + b[..|b| - 1];
    }
  }

  /** The same sums with the reduction put off. */
  function Raw(s: Sums, buf: seq<byte>): (r: Sums)
    ensures s.s1 <= r.s1 <= s.s1 + 255 * |buf|
  {
    if |buf| == 0 then s
    else
      var t := Raw(s, buf[..|buf| - 1]);
      var s1 := t.s1 + buf[|buf| - 1];
      Sums(s1, t.s2 + s1)
  }

  lemma ModAdd(a: nat, x: nat)
    ensures (a % BASE + x) % BASE == (a + x) % BASE
  {
    var q := a / BASE;
    assert a + x == BASE * q + (a % BASE + x);
  }

  lemma {:induction false} RawReduces(s: Sums, buf: seq<byte>)
    requires s.Reduced()
    ensures Checksum(s, buf) == Sums(Raw(s, buf).s1 % BASE, Raw(s, buf).s2 % BASE)
  {
    if |buf| > 0 {
      var t := Raw(s, buf[..|buf| - 1]);
      var x := buf[|buf| - 1];
      RawReduces(s, buf[..|buf| - 1]);
      ModAdd(t.s1, x);
      ModAdd(t.s2, (t.s1 + x) % BASE);
      ModAdd(t.s1 + x, t.s2);
    }
  }

  function Triangle(n: nat): (r: nat) { if n == 0 then 0 else n + Triangle(n - 1) }

  lemma {:induction false} TriangleMono(m: nat, n: nat)
    requires m <= n
    ensures Triangle(m) <= Triangle(n)
    decreases n
  {
    if m < n { TriangleMono(m, n - 1); }
  }

  lemma {:induction false} TriangleIs(n: nat)
    ensures 2 * Triangle(n) == n * (n + 1)
  {
    if n > 0 { TriangleIs(n - 1); }
  }

  lemma {:induction false} RawBound(s: Sums, buf: seq<byte>)
    requires s.Reduced()
    ensures Raw(s, buf).s2 <= 255 * Triangle(|buf|) + (|buf| + 1) * 65520
  {
    if |buf| > 0 { RawBound(s, buf[..|buf| - 1]); }
  }

  /** NMAX bytes cannot make either sum exceed 32 bits. */
  lemma RawFits(s: Sums, buf: seq<byte>)
    requires s.Reduced() && |buf| <= NMAX
    ensures Raw(s, buf).s1 < 0x1_0000_0000 && Raw(s, buf).s2 < 0x1_0000_0000
  {
    hide Triangle, Raw;
    RawBound(s, buf);
    TriangleMono(|buf|, NMAX);
    TriangleIs(NMAX);
  }

  /** One byte more can: NMAX is the greatest such number of bytes. */
  lemma {:induction false} RawFull(n: nat)
    ensures var r := Raw(Sums(BASE - 1, BASE - 1), seq(n, _ => 255));
      r.s1 == BASE - 1 + 255 * n && r.s2 == 255 * Triangle(n) + (n + 1) * 65520
  {
    if n > 0 {
      RawFull(n - 1);
      var all: seq<byte> := seq(n, _ => 255);
      assert all[..n - 1] == seq(n - 1, _ => 255);
    }
  }

  lemma NmaxIsGreatest()
    ensures exists s: Sums, buf: seq<byte> :: s.Reduced() && |buf| == NMAX + 1 && Raw(s, buf).s2 >= 0x1_0000_0000
  {
    hide Raw, Triangle;
    RawFull(NMAX + 1);
    TriangleIs(NMAX + 1);
    var buf: seq<byte> := seq(NMAX + 1, _ => 255);
    assert Sums(BASE - 1, BASE - 1).Reduced() && |buf| == NMAX + 1;
  }

  /** DO1: one byte more, still within 32 bits. */
  lemma RawStep(s: Sums, buf: seq<byte>, from: nat, at: nat)
    requires s.Reduced() && from <= at < |buf| && at + 1 - from <= NMAX
    ensures var t := Raw(s, buf[from..at]); var u := Raw(s, buf[from..at + 1]);
      u.s1 == t.s1 + buf[at] && u.s2 == t.s2 + u.s1 && u.s1 < 0x1_0000_0000 && u.s2 < 0x1_0000_0000
  {
    assert buf[from..at + 1][..at - from] == buf[from..at];
    RawFits(s, buf[from..at + 1]);
  }

  lemma RawNone(s: Sums, buf: seq<byte>, from: nat)
    requires from <= |buf|
    ensures Raw(s, buf[from..from]) == s
  {
  }

  /** One run of k bytes, sixteen at a time. */
  method Run(buf: seq<byte>, from: nat, k0: nat, s10: nat, s20: nat) returns (s1: nat, s2: nat)
    requires from + k0 <= |buf| && k0 <= NMAX && Sums(s10, s20).Reduced()
    ensures Sums(s1, s2) == Raw(Sums(s10, s20), buf[from..from + k0])
  {
    hide Raw;
    ghost var t := Sums(s10, s20);
    s1, s2 := s10, s20;
    var at, k := from, k0;
    RawNone(t, buf, from);
    while k >= 16
      invariant from <= at && at + k == from + k0
      invariant Sums(s1, s2) == Raw(t, buf[from..at])
    {
      for i := 0 to 16
        invariant Sums(s1, s2) == Raw(t, buf[from..at + i])
      {
        RawStep(t, buf, from, at + i);
        s1 := s1 + buf[at + i];
        s2 := s2 + s1;
      }
      at := at + 16;
      k := k - 16;
    }
    while k > 0
      invariant from <= at && at + k == from + k0
      invariant Sums(s1, s2) == Raw(t, buf[from..at])
    {
      RawStep(t, buf, from, at);
      s1 := s1 + buf[at];
      s2 := s2 + s1;
      at := at + 1;
      k := k - 1;
    }
  }

  /** zlib_adler32: runs of at most NMAX bytes, reduced after each.  Neither sum
      leaves 32 bits at any point of a run. */
  method Adler32(adler: nat, buf: seq<byte>) returns (r: nat)
    requires adler < 0x1_0000_0000 && Unpack(adler).Reduced()
    ensures r < 0x1_0000_0000 && Unpack(r) == Checksum(Unpack(adler), buf)
  {
    ghost var s := Unpack(adler);
    var s1: nat, s2: nat := adler % 65536, adler / 65536 % 65536;
    var at := 0;
    while at < |buf|
      invariant at <= |buf| && Sums(s1, s2) == Checksum(s, buf[..at])
    {
      var k := if |buf| - at < NMAX then |buf| - at else NMAX;
      ghost var t := Sums(s1, s2);
      s1, s2 := Run(buf, at, k, s1, s2);
      RawReduces(t, buf[at..at + k]);
      AdlerConcat(s, buf[..at], buf[at..at + k]);
      assert buf[..at] + buf[at..at + k] == buf[..at + k];
      s1 := s1 % BASE;
      s2 := s2 % BASE;
      at := at + k;
    }
    assert buf[..at] == buf;
    r := s2 * 65536 + s1;
    UnpackWord(Sums(s1, s2));
  }

  // ----- the two sums -----

  function Sum(buf: seq<byte>): nat { if buf == [] then 0 else buf[0] + Sum(buf[1..]) }

  /** Each byte as often as there are bytes from it on. */
  function Weighted(buf: seq<byte>): nat { if buf == [] then 0 else |buf| * buf[0] + Weighted(buf[1..]) }

  lemma {:induction false} SumMore(buf: seq<byte>, x: byte)
    ensures Sum(buf + [x]) == Sum(buf) + x && Weighted(buf + [x]) == Weighted(buf) + Sum(buf) + x
  {
    var more := buf + [x];
    if buf == [] {
      assert more[1..] == [];
    } else {
      SumMore(buf[1..], x);
      assert more[1..] == buf[1..] + [x];
      assert |more| * more[0] == |buf| * buf[0] + buf[0];
    }
  }

  lemma {:induction false} RawSums(buf: seq<byte>)
    ensures Raw(START, buf) == Sums(1 + Sum(buf), |buf| + Weighted(buf))
  {
    if |buf| > 0 {
      var n := |buf| - 1;
      RawSums(buf[..n]);
      SumMore(buf[..n], buf[n]);
      assert buf[..n] + [buf[n]] == buf;
    }
  }

  /** The checksum in closed form: one more than the sum of the bytes, and the number of bytes
      and the sum of the bytes, each as often as there are bytes from it on, modulo BASE. */
  lemma AdlerSums(buf: seq<byte>)
    ensures Checksum(START, buf) == Sums((1 + Sum(buf)) % BASE, (|buf| + Weighted(buf)) % BASE)
  {
    hide Raw, Sum, Weighted, Checksum;
    RawSums(buf);
    RawReduces(START, buf);
  }

  // ----- the modulus -----

  /** BASE is the largest prime below 2^16. */
  lemma BaseIsPrime()
    ensures Prime(BASE) && forall n: nat :: Prime(n) && n < 65536 ==> n <= BASE
  {
    Below65536();
    forall n: nat | BASE < n < 65536
      ensures !Prime(n)
    {
      assert Divides(2, n) || Divides(3, n) || Divides(5, n) || Divides(7, n) || Divides(13, n) || Divides(19, n);
    }
  }
}
