/** Decimal numerals: what strconv and big.Int.SetString read, and their canonical rendering. */
module Decimals {
  import opened Options

  predicate IsDigit(c: char) {
    '0' <= c <= '9'
  }

  predicate AllDigits(s: string) {
    forall i :: 0 <= i < |s| ==> IsDigit(s[i])
  }

  function DigitValue(c: char): (d: int)
    requires IsDigit(c)
    ensures 0 <= d < 10
  {
    c as int - '0' as int
  }

  /** The number a digit string denotes. */
  function Decimal(s: string): nat
    requires AllDigits(s)
  {
    if s == "" then 0 else 10 * Decimal(s[..|s| - 1]) + DigitValue(s[|s| - 1])
  }

  function DigitChar(d: nat): (c: char)
    requires d < 10
    ensures IsDigit(c) && DigitValue(c) == d
  {
    ('0' as int + d) as char
  }

  function Numeral(n: nat): (s: string)
    ensures s != "" && AllDigits(s)
  {
    if n < 10 then [DigitChar(n)] else Numeral(n / 10) + [DigitChar(n % 10)]
  }

  lemma {:induction false} DecimalOfNumeral(n: nat)
    ensures Decimal(Numeral(n)) == n
  {
    var s := Numeral(n);
    if n < 10 {
      assert s[..0] == "";
    } else {
      DecimalOfNumeral(n / 10);
      assert s[..|s| - 1] == Numeral(n / 10);
    }
  }

  /** big.Int.SetString(s, 10): an optional sign and at least one digit. */
  function ParseInt(s: string): Option<int> {
    if s == "" then None
    else if s[0] == '-' || s[0] == '+' then
      if s[1..] == "" || !AllDigits(s[1..]) then None
      else Some(if s[0] == '-' then 0 - Decimal(s[1..]) else Decimal(s[1..]))
    else if AllDigits(s) then Some(Decimal(s)) else None
  }

  function Show(n: int): string {
    if n < 0 then "-" + Numeral(-n) else Numeral(n)
  }

  lemma ParseOfShow(n: int)
    ensures ParseInt(Show(n)) == Some(n)
  {
    if n < 0 {
      DecimalOfNumeral(-n);
      assert Show(n)[1..] == Numeral(-n);
    } else {
      DecimalOfNumeral(n);
      assert IsDigit(Numeral(n)[0]);
    }
  }

  lemma {:induction false} LeadingZero(s: string)
    requires AllDigits(s)
    ensures AllDigits("0" + s) && Decimal("0" + s) == Decimal(s)
    decreases |s|
  {
    if s == "" {
      assert ("0" + s)[..0] == "";
    } else {
      var n := |s| - 1;
      LeadingZero(s[..n]);
      assert ("0" + s)[..n + 1] == "0" + s[..n] && ("0" + s)[n + 1] == s[n];
    }
  }

  /** A plus sign and a leading zero change nothing. */
  lemma PlusAndZero(n: nat)
    ensures ParseInt("+" + Numeral(n)) == Some(n) && ParseInt("0" + Numeral(n)) == Some(n)
  {
    var s := Numeral(n);
    DecimalOfNumeral(n);
    LeadingZero(s);
    assert ("+" + s)[1..] == s && ("0" + s)[0] == '0';
  }
}
