/** symbol.c: which texts sym_string_valid takes for the values of int and hex symbols. */
module Numbers {
  import opened Kconfig
  import opened Confdata

  /** A natural number in decimal. */
  function Decimal(n: nat): (d: string)
    ensures d != ""
  {
    if n < 10 then [('0' as int + n) as char] else Decimal(n / 10) + [('0' as int + n % 10) as char]
  }

  function Signed(n: int): string { if n < 0 then "-" + Decimal(-n) else Decimal(n) }

  /** The number that digits stand for. */
  function Number(d: string): nat
    requires AllDigits(false, d)
  {
    if d == "" then 0
    else
      assert IsDigit(false, d[|d| - 1]) && AllDigits(false, d[..|d| - 1]);
      10 * Number(d[..|d| - 1]) + (d[|d| - 1] as int - '0' as int)
  }

  /** No zero comes before another digit. */
  predicate Canonical(d: string) { d != "" && (d[0] == '0' ==> |d| == 1) }

  lemma {:induction false} DecimalDigits(n: nat)
    ensures AllDigits(false, Decimal(n)) && Canonical(Decimal(n)) && (Decimal(n)[0] == '0' ==> n == 0)
  {
    if n >= 10 {
      DecimalDigits(n / 10);
      var a := Decimal(n / 10);
      assert Decimal(n)[0] == a[0];
      assert forall k :: 0 <= k < |a| ==> Decimal(n)[k] == a[k] && IsDigit(false, a[k]);
    }
  }

  lemma {:induction false} DigitsDecimal(d: string)
    requires AllDigits(false, d) && Canonical(d)
    ensures Decimal(Number(d)) == d && (d[0] != '0' ==> Number(d) > 0)
  {
    var n := |d| - 1;
    assert IsDigit(false, d[n]);
    if n == 0 {
      assert d[..0] == "" && d == [d[0]];
    } else {
      assert AllDigits(false, d[..n]);
      DigitsDecimal(d[..n]);
      assert d == d[..n] + [d[n]];
    }
  }

  /** An int symbol takes a text if and only if it is an integer in decimal, with a sign if
      it is negative and without zeros in front, or "-0". */
  lemma IntTexts(s: string)
    ensures StringValid(Int, s) <==> s == "-0" || exists n: int :: s == Signed(n)
  {
    hide AllDigits, Decimal;
    if StringValid(Int, s) {
      if s[0] == '-' {
        DigitsDecimal(s[1..]);
        assert s == "-" + s[1..];
        assert s[1..][0] == '0' ==> s[1..] == "0";
        if s != "-0" {
          assert s == Signed(0 - Number(s[1..]));
        }
      } else {
        DigitsDecimal(s);
        assert s == Signed(Number(s));
      }
    }
    if n: int :| s == Signed(n) { SignedValid(n); }
    if s == "-0" { MinusZero(); }
  }

  lemma SignedValid(n: int)
    ensures StringValid(Int, Signed(n))
  {
    hide Decimal;
    DecimalDigits(if n < 0 then -n else n);
    if n < 0 {
      assert Signed(n)[1..] == Decimal(-n);
    } else {
      assert IsDigit(false, Decimal(n)[0]);
    }
  }

  lemma MinusZero()
    ensures StringValid(Int, "-0")
  {
    assert "-0"[1..] == "0";
  }

  /** A hex symbol takes a text if and only if it is hexadecimal digits, of either case, with
      0x or 0X in front or without. */
  lemma HexTexts(s: string)
    ensures StringValid(Hex, s)
       <==> exists d: string :: d != "" && AllDigits(true, d) && (s == d || s == "0x" + d || s == "0X" + d)
  {
    if StringValid(Hex, s) {
      var d := if |s| > 1 && s[0] == '0' && (s[1] == 'x' || s[1] == 'X') then s[2..] else s;
      if d != s { assert s == s[..2] + d && s[..2] == [s[0], s[1]]; }
    }
    if d: string :| d != "" && AllDigits(true, d) && (s == d || s == "0x" + d || s == "0X" + d) {
      if s == d {
        if |s| > 1 { assert IsDigit(true, d[1]); }
      } else {
        assert s[2..] == d;
      }
    }
  }
}
