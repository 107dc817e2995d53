/** Digit strings and the numbers they write. */
module Numerals {

  predicate IsDigit(c: char) { '0' <= c <= '9' }

  predicate Digits(s: string) {
    s != "" && forall i :: 0 <= i < |s| ==> IsDigit(s[i])
  }

  /** Length of the run of digits at the front. */
  function DigitsEnd(s: string): (k: nat)
    ensures k <= |s|
  {
    if s == "" || !IsDigit(s[0]) then 0 else 1 + DigitsEnd(s[1..])
  }

  function Value(s: string): nat
    requires forall i :: 0 <= i < |s| ==> IsDigit(s[i])
  {
    if s == "" then 0
    else
      assert IsDigit(s[|s| - 1]);
      10 * Value(s[..|s| - 1]) + (s[|s| - 1] as int - '0' as int)
  }

  function DigitChar(d: nat): char
    requires d < 10
  {
    ('0' as int + d) as char
  }

  function Decimal(n: nat): (s: string)
    ensures s != ""
  {
    if n < 10 then [DigitChar(n)] else Decimal(n / 10) + [DigitChar(n % 10)]
  }

  lemma {:induction false} DecimalIsDigits(n: nat)
    ensures Digits(Decimal(n))
  {
    if n >= 10 {
      DecimalIsDigits(n / 10);
      var s := Decimal(n / 10);
      assert forall i :: 0 <= i < |s| ==> Decimal(n)[i] == s[i];
    }
  }

  function StripZeros(s: string): string {
    if |s| > 1 && s[0] == '0' then StripZeros(s[1..]) else s
  }

  lemma {:induction false} ValueOfZero(s: string)
    requires s != "" && s[0] == '0' && forall i :: 0 <= i < |s| ==> IsDigit(s[i])
    ensures Value(s) == Value(s[1..])
  {
    if |s| > 1 {
      ValueOfZero(s[..|s| - 1]);
      assert s[1..][..|s| - 2] == s[..|s| - 1][1..];
    }
  }

  lemma {:induction false} DecimalOfStripped(s: string)
    requires Digits(s) && (|s| == 1 || s[0] != '0')
    ensures Decimal(Value(s)) == s
    ensures s[0] != '0' ==> Value(s) > 0
  {
    var pre, d := s[..|s| - 1], s[|s| - 1];
    if |s| > 1 {
      DecimalOfStripped(pre);
      assert Value(s) / 10 == Value(pre) && Value(s) % 10 == d as int - '0' as int;
      assert s == pre + [d];
    } else {
      assert pre == "";
    }
  }

  /** Reading and writing a digit string only drops leading zeros. */
  lemma {:induction false} DecimalOfValue(s: string)
    requires Digits(s)
    ensures Decimal(Value(s)) == StripZeros(s)
  {
    if |s| > 1 && s[0] == '0' {
      ValueOfZero(s);
      DecimalOfValue(s[1..]);
    } else {
      DecimalOfStripped(s);
    }
  }

  lemma {:induction false} ValueOfDecimal(n: nat)
    ensures Digits(Decimal(n)) && Value(Decimal(n)) == n
  {
    DecimalIsDigits(n);
    if n >= 10 {
      ValueOfDecimal(n / 10);
      var s := Decimal(n);
      assert s[..|s| - 1] == Decimal(n / 10);
    } else {
      assert Decimal(n)[..0] == "";
    }
  }
}
