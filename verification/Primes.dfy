/** The greatest prime number of 16 bits. */
module Primes {
  predicate Divides(d: nat, n: nat)
    requires d > 0
  {
    n % d == 0
  }

  ghost predicate Prime(n: nat) { n >= 2 && forall d: nat :: 2 <= d < n ==> !Divides(d, n) }

  /** None of 2 to k divides n. */
  predicate NoDivisor(n: nat, k: nat) { k < 2 || (n % k != 0 && NoDivisor(n, k - 1)) }

  lemma {:induction false} NoDivisorAt(n: nat, k: nat, d: nat)
    requires NoDivisor(n, k) && 2 <= d <= k
    ensures !Divides(d, n)
  {
    if d < k { NoDivisorAt(n, k - 1, d); }
  }

  lemma NoDivisorTo60()
    ensures NoDivisor(65521, 60)
  {
    assert NoDivisor(65521, 10); assert NoDivisor(65521, 20); assert NoDivisor(65521, 30); assert NoDivisor(65521, 40);
    assert NoDivisor(65521, 50); assert NoDivisor(65521, 60);
  }

  lemma NoDivisorTo120()
    ensures NoDivisor(65521, 120)
  {
    NoDivisorTo60();
    assert NoDivisor(65521, 70); assert NoDivisor(65521, 80); assert NoDivisor(65521, 90); assert NoDivisor(65521, 100);
    assert NoDivisor(65521, 110); assert NoDivisor(65521, 120);
  }

  lemma NoDivisorTo180()
    ensures NoDivisor(65521, 180)
  {
    NoDivisorTo120();
    assert NoDivisor(65521, 130); assert NoDivisor(65521, 140); assert NoDivisor(65521, 150);
    assert NoDivisor(65521, 160);
    assert NoDivisor(65521, 170); assert NoDivisor(65521, 180);
  }

  lemma NoDivisorTo255()
    ensures NoDivisor(65521, 255)
  {
    NoDivisorTo180();
    assert NoDivisor(65521, 190); assert NoDivisor(65521, 200); assert NoDivisor(65521, 210);
    assert NoDivisor(65521, 220);
    assert NoDivisor(65521, 230); assert NoDivisor(65521, 240); assert NoDivisor(65521, 250);
    assert NoDivisor(65521, 255);
  }

  /** A divisor from 256 on goes with one below it. */
  lemma SmallDivisor(n: nat, d: nat)
    requires n < 65536 && 255 < d < n && Divides(d, n)
    ensures 2 <= n / d <= 255 && Divides(n / d, n)
  {
    var e := n / d;
    assert n == d * e;
    ProductDivides(d, e);
  }

  lemma ProductDivides(d: nat, e: nat)
    requires e > 0
    ensures Divides(e, d * e)
  {
  }

  lemma Below65536()
    ensures Prime(65521)
  {
    NoDivisorTo255();
    forall d: nat | 2 <= d < 65521
      ensures !Divides(d, 65521)
    {
      if d <= 255 {
        NoDivisorAt(65521, 255, d);
      } else if Divides(d, 65521) {
        SmallDivisor(65521, d);
        NoDivisorAt(65521, 255, 65521 / d);
      }
    }
  }
}
