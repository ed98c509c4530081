/**
 * The decimal rendering of Go's `strconv.Itoa`, which the store uses to turn
 * a user's numeric ID into the key of the persisted map.
 */
module Strconv {

  /** The ASCII digit for `d`. */
  function Digit(d: nat): (c: char)
    requires d < 10
    ensures '0' <= c <= '9'
  {
    (48 + d) as char
  }

  /** The value of an ASCII digit. */
  function DigitValue(c: char): nat
    requires '0' <= c <= '9'
  {
    c as int - 48
  }

  predicate AllDigits(s: string) {
    forall i :: 0 <= i < |s| ==> '0' <= s[i] <= '9'
  }

  /** The decimal digits of `n`, most significant first, without leading zeros. */
  function DigitsOf(n: nat): (s: string)
    ensures 1 <= |s| && AllDigits(s)
    ensures |s| > 1 ==> s[0] != '0'
  {
    if n < 10 then [Digit(n)] else DigitsOf(n / 10) + [Digit(n % 10)]
  }

  /** `strconv.Itoa`: a minus sign for negative numbers, then the digits of the magnitude. */
  function Itoa(n: int): (s: string)
    ensures |s| >= 1
    ensures n >= 0 <==> AllDigits(s)
    ensures n < 0 <==> s[0] == '-'
    ensures |s| > 1 && n >= 0 ==> s[0] != '0'
  {
    if n < 0 then
      var s := "-" + DigitsOf(-n);
      assert s[0] == '-';
      s
    else DigitsOf(n)
  }

  /** The number a string of decimal digits denotes (the empty string denotes 0). */
  function ValueOf(s: string): nat
    requires AllDigits(s)
  {
    if s == [] then 0 else ValueOf(s[..|s| - 1]) * 10 + DigitValue(s[|s| - 1])
  }

  /** The inverse of `Itoa` on the strings `Itoa` produces. */
  function Atoi(s: string): int
    requires AllDigits(s) || (|s| >= 1 && s[0] == '-' && AllDigits(s[1..]))
  {
    if |s| >= 1 && s[0] == '-' then 0 - ValueOf(s[1..]) else ValueOf(s)
  }

  lemma {:induction false} ValueOfDigitsOf(n: nat)
    ensures ValueOf(DigitsOf(n)) == n
  {
    if n >= 10 {
      var s := DigitsOf(n);
      assert s[..|s| - 1] == DigitsOf(n / 10);
      ValueOfDigitsOf(n / 10);
    }
  }

  /** Reading back what `Itoa` wrote gives the number. */
  lemma AtoiItoa(n: int)
    ensures Atoi(Itoa(n)) == n
  {
    if n < 0 {
      var d := DigitsOf(-n);
      assert Itoa(n) == "-" + d;
      assert Itoa(n)[1..] == d;
      ValueOfDigitsOf(-n);
    } else {
      ValueOfDigitsOf(n);
    }
  }

  /** Distinct numbers have distinct decimal strings, so IDs give distinct keys. */
  lemma ItoaInjective(a: int, b: int)
    ensures Itoa(a) == Itoa(b) <==> a == b
  {
    if Itoa(a) == Itoa(b) {
      AtoiItoa(a);
      AtoiItoa(b);
    }
  }
}
