/**
 * Go's strconv.Atoi and strconv.Itoa on unbounded integers.
 * The monitor always discards Atoi's error, so a failed conversion is the value 0.
 */
module Strconv {

  predicate IsDigit(c: char) { '0' <= c <= '9' }

  predicate AllDigits(s: string) { forall i :: 0 <= i < |s| ==> IsDigit(s[i]) }

  function DigitValue(c: char): nat
    requires IsDigit(c)
  {
    c as int - '0' as int
  }

  function DigitChar(d: nat): (c: char)
    requires d < 10
    ensures IsDigit(c) && DigitValue(c) == d
  {
    ('0' as int + d) as char
  }

  /** The value of a string of decimal digits, most significant first. */
  function DigitsValue(s: string): nat
    requires AllDigits(s)
  {
    if |s| == 0 then 0 else DigitsValue(s[..|s| - 1]) * 10 + DigitValue(s[|s| - 1])
  }

  /** The shortest decimal spelling of n. */
  function Decimal(n: nat): (s: string)
    ensures |s| > 0 && AllDigits(s)
    ensures n > 0 ==> s[0] != '0'
  {
    if n < 10 then [DigitChar(n)] else Decimal(n / 10) + [DigitChar(n % 10)]
  }

  /**
   * strconv.Atoi with its error ignored: an optional '+' or '-' followed by at
   * least one decimal digit; any other string converts to 0.
   */
  function Atoi(s: string): (n: int)
    ensures '-' !in s ==> n >= 0
    ensures |s| > 0 && AllDigits(s) ==> n == DigitsValue(s)
    ensures |s| > 1 && (s[0] == '-' || s[0] == '+') && AllDigits(s[1..]) ==>
      n == if s[0] == '-' then -(DigitsValue(s[1..]) as int) else DigitsValue(s[1..]) as int
    ensures !(|s| > 0 && AllDigits(s)) && !(|s| > 1 && (s[0] == '-' || s[0] == '+') && AllDigits(s[1..])) ==> n == 0
  {
    if |s| > 0 && (s[0] == '-' || s[0] == '+') then
      var t := s[1..];
      if |t| == 0 || !AllDigits(t) then 0
      else if s[0] == '-' then -(DigitsValue(t) as int)
      else DigitsValue(t)
    else if AllDigits(s) then DigitsValue(s)
    else 0
  }

  /** strconv.Itoa: a '-' for negative numbers, then the decimal digits. */
  function Itoa(n: int): (s: string)
    ensures |s| > 0
    ensures n >= 0 <==> s[0] != '-'
  {
    if n < 0 then "-" + Decimal(-n) else Decimal(n)
  }

  lemma {:induction false} DecimalValue(n: nat)
    ensures DigitsValue(Decimal(n)) == n
  {
    if n >= 10 {
      var s := Decimal(n);
      DecimalValue(n / 10);
      assert s[..|s| - 1] == Decimal(n / 10);
    }
  }

  /** Itoa is undone by Atoi, so the display strings name the numbers they came from. */
  lemma AtoiItoa(n: int)
    ensures Atoi(Itoa(n)) == n
  {
    if n < 0 {
      DecimalValue(-n);
      assert Itoa(n)[1..] == Decimal(-n);
    } else {
      DecimalValue(n);
    }
  }

  lemma ItoaInjective(a: int, b: int)
    ensures Itoa(a) == Itoa(b) <==> a == b
  {
    AtoiItoa(a);
    AtoiItoa(b);
  }
}
