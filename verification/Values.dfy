/** The values of length and distance symbols (section 3.2.5 of RFC 1951) without
    tables: how many extra bits a symbol has, and that the values of each symbol begin
    where those of the one before end.  So every value is written in one way. */
module Values {
  import opened Bits
  import opened Trees

  // ----- lengths -----

  /** Eight symbols without extra bits, then four symbols of each number of bits. */
  function LengthExtraBits(s: nat): nat
    requires 257 <= s <= 285
  {
    if s < 265 || s == 285 then 0 else (s - 261) / 4
  }

  /** The first length of a symbol: those of the symbols before it are taken. */
  function FirstLength(s: nat): (r: nat)
    requires 257 <= s <= 285
  {
    if s == 285 then 258
    else if s == 257 then 3
    else FirstLength(s - 1) + Pow2(LengthExtraBits(s - 1))
  }

  lemma LengthBitsLow(s: nat)
    requires 257 <= s <= 271
    ensures LengthBits(s) == LengthExtraBits(s)
  {
  }

  lemma LengthBitsHigh(s: nat)
    requires 272 <= s <= 285
    ensures LengthBits(s) == LengthExtraBits(s)
  {
  }

  lemma LengthStepLow(s: nat)
    requires 257 <= s <= 270
    ensures LengthBase(s + 1) == LengthBase(s) + Pow2(LengthExtraBits(s))
  {
    Pow2Values();
  }

  lemma LengthStepHigh(s: nat)
    requires 271 <= s < 284
    ensures LengthBase(s + 1) == LengthBase(s) + Pow2(LengthExtraBits(s))
  {
    Pow2Values();
  }

  /** The tables of length symbols in closed form. */
  lemma {:induction false} LengthTables(s: nat)
    requires 257 <= s <= 285
    ensures LengthBits(s) == LengthExtraBits(s) && LengthBase(s) == FirstLength(s)
  {
    if s <= 271 { LengthBitsLow(s); } else { LengthBitsHigh(s); }
    if 257 < s < 285 {
      LengthTables(s - 1);
      if s <= 271 { LengthStepLow(s - 1); } else { LengthStepHigh(s - 1); }
    }
  }

  ghost predicate IsLength(s: nat, e: nat, len: nat) {
    257 <= s <= 285 && e < Pow2(LengthBits(s)) && LengthBase(s) + e == len
  }

  /** The symbol from s on, short of the last, that a length belongs to, and its extra bits. */
  function LengthFrom(s: nat, left: nat): (r: (nat, nat))
    requires 257 <= s <= 284
    decreases 284 - s
  {
    if s == 284 || left < Pow2(LengthExtraBits(s)) then (s, left)
    else LengthFrom(s + 1, left - Pow2(LengthExtraBits(s)))
  }

  lemma {:induction false} LengthFromIs(s: nat, left: nat)
    requires 257 <= s <= 284 && FirstLength(s) + left <= 258
    ensures IsLength(LengthFrom(s, left).0, LengthFrom(s, left).1, FirstLength(s) + left)
    ensures LengthFrom(s, left).0 <= 284
    decreases 284 - s
  {
    LengthTables(s);
    if s < 284 {
      if left >= Pow2(LengthExtraBits(s)) { LengthFromIs(s + 1, left - Pow2(LengthExtraBits(s))); }
    } else {
      Pow2Values();
    }
  }

  /** The lengths of a symbol are below those of a later one. */
  lemma {:induction false} LengthsApart(s: nat, t: nat)
    requires 257 <= s < t <= 284
    ensures FirstLength(s) + Pow2(LengthExtraBits(s)) <= FirstLength(t)
    decreases t
  {
    if s < t - 1 { LengthsApart(s, t - 1); }
  }

  /** Every length from 3 to 257 is that of exactly one symbol with one value of its extra
      bits.  258 is the one length of the last symbol, and can be written in one other way. */
  lemma LengthOnce(len: nat)
    ensures (exists s: nat, e: nat :: IsLength(s, e, len)) <==> 3 <= len <= 258
    ensures forall s: nat, e: nat, t: nat, f: nat :: IsLength(s, e, len) && IsLength(t, f, len) && len < 258 ==>
        s == t && e == f
    ensures forall s: nat, e: nat :: IsLength(s, e, 258) <==> (s, e) == (285, 0) || (s, e) == (284, 31)
  {
    hide IsLength;
    if 3 <= len <= 258 { LengthFromIs(257, len - 3); }
    forall s: nat, e: nat | IsLength(s, e, len)
      ensures 3 <= len <= 258
    {
      LengthRange(s, e, len);
    }
    forall s: nat, e: nat, t: nat, f: nat | IsLength(s, e, len) && IsLength(t, f, len) && len < 258
      ensures s == t && e == f
    {
      SameLength(s, e, t, f, len);
    }
    forall s: nat, e: nat
      ensures IsLength(s, e, 258) <==> (s, e) == (285, 0) || (s, e) == (284, 31)
    {
      LastLength(s, e);
    }
  }

  lemma LengthRange(s: nat, e: nat, len: nat)
    requires IsLength(s, e, len)
    ensures 3 <= len <= 258 && (s == 285 ==> len == 258)
    ensures s == 284 ==> len == 227 + e
  {
    hide LengthBits, LengthBase;
    LengthTables(s);
    Pow2Values();
    LengthTables(284);
    assert FirstLength(284) == 227 by { assert LengthBase(284) == 227 by { LastTables(); } }
    if 257 < s < 285 { LengthsApart(257, s); }
    if s < 284 { LengthsApart(s, 284); }
  }

  lemma LastTables()
    ensures LengthBase(284) == 227 && LengthBase(285) == 258 && LengthBase(257) == 3
  {
  }

  lemma SameLength(s: nat, e: nat, t: nat, f: nat, len: nat)
    requires IsLength(s, e, len) && IsLength(t, f, len) && len < 258
    ensures s == t && e == f
  {
    hide LengthBits, LengthBase;
    LengthRange(s, e, len);
    LengthRange(t, f, len);
    LengthTables(s);
    LengthTables(t);
    if s < t { LengthsApart(s, t); }
    if t < s { LengthsApart(t, s); }
  }

  lemma LastLength(s: nat, e: nat)
    ensures IsLength(s, e, 258) <==> (s, e) == (285, 0) || (s, e) == (284, 31)
  {
    hide LengthBits, LengthBase;
    LengthTables(284);
    LengthTables(285);
    LastTables();
    Pow2Values();
    if IsLength(s, e, 258) {
      LengthRange(s, e, 258);
      LengthTables(s);
      if s < 284 { LengthsApart(s, 284); }
    }
  }

  // ----- distances -----

  /** Four symbols without extra bits, then two symbols of each number of bits. */
  function DistanceExtraBits(s: nat): nat {
    if s < 4 then 0 else s / 2 - 1
  }

  function FirstDistance(s: nat): (r: nat)
    ensures r > 0
  {
    if s == 0 then 1 else FirstDistance(s - 1) + Pow2(DistanceExtraBits(s - 1))
  }

  lemma DistanceStepLow(s: nat)
    requires s < 15
    ensures DistanceBits(s) == DistanceExtraBits(s)
    ensures DistanceBase(s + 1) == DistanceBase(s) + Pow2(DistanceExtraBits(s))
  {
    Pow2Values();
  }

  lemma DistanceStepHigh(s: nat)
    requires 15 <= s < 30
    ensures DistanceBits(s) == DistanceExtraBits(s)
    ensures s < 29 ==> DistanceBase(s + 1) == DistanceBase(s) + Pow2(DistanceExtraBits(s))
  {
    Pow2Values();
  }

  /** The tables of distance symbols in closed form. */
  lemma {:induction false} DistanceTables(s: nat)
    requires s < 30
    ensures DistanceBits(s) == DistanceExtraBits(s) && DistanceBase(s) == FirstDistance(s)
  {
    if s < 15 { DistanceStepLow(s); } else { DistanceStepHigh(s); }
    if s > 0 {
      DistanceTables(s - 1);
      if s <= 15 { DistanceStepLow(s - 1); } else { DistanceStepHigh(s - 1); }
    }
  }

  ghost predicate IsDistance(s: nat, e: nat, dist: nat) {
    s < 30 && e < Pow2(DistanceBits(s)) && DistanceBase(s) + e == dist
  }

  /** The symbol from s on that a distance belongs to, and its extra bits. */
  function DistanceFrom(s: nat, left: nat): (r: (nat, nat))
    requires s < 30
    decreases 30 - s
  {
    if s == 29 || left < Pow2(DistanceExtraBits(s)) then (s, left)
    else DistanceFrom(s + 1, left - Pow2(DistanceExtraBits(s)))
  }

  lemma {:induction false} DistanceFromIs(s: nat, left: nat)
    requires s < 30 && FirstDistance(s) + left <= 32768
    ensures IsDistance(DistanceFrom(s, left).0, DistanceFrom(s, left).1, FirstDistance(s) + left)
    decreases 30 - s
  {
    DistanceTables(s);
    if s < 29 {
      if left >= Pow2(DistanceExtraBits(s)) { DistanceFromIs(s + 1, left - Pow2(DistanceExtraBits(s))); }
    } else {
      Pow2Values();
    }
  }

  lemma {:induction false} DistancesApart(s: nat, t: nat)
    requires s < t
    ensures FirstDistance(s) + Pow2(DistanceExtraBits(s)) <= FirstDistance(t)
    decreases t
  {
    if s < t - 1 { DistancesApart(s, t - 1); }
  }

  lemma LastDistance()
    ensures FirstDistance(29) + Pow2(DistanceExtraBits(29)) == 32769
  {
    DistanceTables(29);
    Pow2Values();
  }

  /** The distances that symbols have are 1 to 32768, each that of exactly one symbol with
      one value of its extra bits. */
  lemma DistanceOnce(dist: nat)
    ensures (exists s: nat, e: nat :: IsDistance(s, e, dist)) <==> 1 <= dist <= 32768
    ensures forall s: nat, e: nat, t: nat, f: nat :: IsDistance(s, e, dist) && IsDistance(t, f, dist) ==>
        s == t && e == f
  {
    hide IsDistance;
    if 1 <= dist <= 32768 { DistanceFromIs(0, dist - 1); }
    forall s: nat, e: nat | IsDistance(s, e, dist)
      ensures 1 <= dist <= 32768
    {
      DistanceRange(s, e, dist);
    }
    forall s: nat, e: nat, t: nat, f: nat | IsDistance(s, e, dist) && IsDistance(t, f, dist)
      ensures s == t && e == f
    {
      SameDistance(s, e, t, f, dist);
    }
  }

  lemma DistanceRange(s: nat, e: nat, dist: nat)
    requires IsDistance(s, e, dist)
    ensures 1 <= dist <= 32768
  {
    hide DistanceBits, DistanceBase;
    DistanceTables(s);
    LastDistance();
    if s < 29 { DistancesApart(s, 29); }
  }

  lemma SameDistance(s: nat, e: nat, t: nat, f: nat, dist: nat)
    requires IsDistance(s, e, dist) && IsDistance(t, f, dist)
    ensures s == t && e == f
  {
    hide DistanceBits, DistanceBase;
    DistanceTables(s);
    DistanceTables(t);
    if s < t { DistancesApart(s, t); }
    if t < s { DistancesApart(t, s); }
  }
}
