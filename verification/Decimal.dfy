/** `std::to_string` and `stoi` on non-negative numbers, and that each undoes the other. */
module Decimal {

  const INT_MAX: nat := 0x7fff_ffff

  function Digit(d: nat): (c: char)
    requires d < 10
  {
    "0123456789"[d]
  }

  function DigitValue(c: char): (d: nat) {
    if '0' <= c <= '9' then c as int - '0' as int else 0
  }

  predicate AllDigits(s: string) { forall i :: 0 <= i < |s| ==> '0' <= s[i] <= '9' }

  function Dec(n: nat): (s: string)
    ensures s != ""
  {
    if n < 10 then [Digit(n)] else Dec(n / 10) + [Digit(n % 10)]
  }

  function Value(s: string): (n: nat) {
    if s == "" then 0 else Value(s[..|s| - 1]) * 10 + DigitValue(s[|s| - 1])
  }

  lemma {:induction false} ValueOfDec(n: nat)
    ensures AllDigits(Dec(n)) && Value(Dec(n)) == n && (n > 0 ==> Dec(n)[0] != '0')
  {
    if n >= 10 {
      ValueOfDec(n / 10);
      var s := Dec(n);
      assert s[..|s| - 1] == Dec(n / 10);
    } else {
      var s := Dec(n);
      assert s[..|s| - 1] == "" && Value("") == 0;
    }
  }

  /** A digit string is printed back unless it has a leading zero. */
  lemma {:induction false} DecOfValueIff(s: string)
    requires s != "" && AllDigits(s)
    ensures Dec(Value(s)) == s <==> s == "0" || s[0] != '0'
    decreases |s|
  {
    if |s| == 1 {
      DecOfDigit(s);
    } else if s[0] == '0' {
      ValueOfDec(Value(s));
    } else {
      var front, c := s[..|s| - 1], s[|s| - 1];
      DecOfValueIff(front);
      LeadingDigit(front);
      DecSnoc(Value(s), Value(front), c);
      assert s == front + [c];
    }
  }

  lemma DecOfDigit(s: string)
    requires |s| == 1 && AllDigits(s)
    ensures Value(s) < 10 && Dec(Value(s)) == s
  {
    assert s[..0] == "" && Value("") == 0;
    assert s == [s[0]];
  }

  lemma DigitBack(c: char)
    requires '0' <= c <= '9'
    ensures Digit(DigitValue(c)) == c
  {
  }

  lemma DecSnoc(n: nat, v: nat, c: char)
    requires '0' <= c <= '9' && v > 0 && n == v * 10 + DigitValue(c)
    ensures Dec(n) == Dec(v) + [c]
  {
    DecStep(n, v, DigitValue(c));
    DigitBack(c);
  }

  lemma DecStep(n: nat, v: nat, d: nat)
    requires v > 0 && d < 10 && n == v * 10 + d
    ensures Dec(n) == Dec(v) + [Digit(d)]
  {
    assert n / 10 == v && n % 10 == d;
  }

  lemma {:induction false} LeadingDigit(s: string)
    requires s != "" && AllDigits(s) && s[0] != '0'
    ensures Value(s) > 0
    decreases |s|
  {
    var n := |s| - 1;
    if n > 0 {
      LeadingDigit(s[..n]);
    } else {
      assert s[..n] == "";
    }
  }
}
