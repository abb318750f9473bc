/** Decimal numbers as text. */
module Decimal {
  import opened Wrappers

  const MAX_INT := 0x7FFF_FFFF_FFFF_FFFF

  predicate IsDigit(c: char) {
    '0' <= c <= '9'
  }

  predicate AllDigits(s: string) {
    forall i :: 0 <= i < |s| ==> IsDigit(s[i])
  }

  function Digits(n: nat): (s: string)
    ensures s != "" && AllDigits(s)
  {
    if n < 10 then [n as char + '0'] else Digits(n / 10) + [(n % 10) as char + '0']
  }

  function Itoa(n: int): string {
    if n < 0 then "-" + Digits(-n) else Digits(n)
  }

  function Value(digits: string): nat
    requires AllDigits(digits)
  {
    if digits == "" then 0 else 10 * Value(digits[..|digits| - 1]) + (digits[|digits| - 1] - '0') as nat
  }

  /** An optional sign and digits, within 64 bits; anything else is an error. */
  function Atoi(s: string): Option<int> {
    var negative := s != "" && s[0] == '-';
    var digits := if s != "" && (s[0] == '-' || s[0] == '+') then s[1..] else s;
    if digits == "" || !AllDigits(digits) then None
    else if negative && Value(digits) <= MAX_INT + 1 then Some(-(Value(digits) as int))
    else if !negative && Value(digits) <= MAX_INT then Some(Value(digits))
    else None
  }

  /** The value of up to three digits. */
  lemma ValueOf(t: string)
    requires 1 <= |t| <= 3 && AllDigits(t)
    ensures |t| == 1 ==> Value(t) == (t[0] - '0') as nat
    ensures |t| == 2 ==> Value(t) == 10 * (t[0] - '0') as nat + (t[1] - '0') as nat
    ensures |t| == 3 ==> Value(t) == 100 * (t[0] - '0') as nat + 10 * (t[1] - '0') as nat + (t[2] - '0') as nat
  {
    if |t| > 1 {
      ValueOf(t[..|t| - 1]);
    }
  }

  lemma {:induction false} DigitsValue(n: nat)
    ensures Value(Digits(n)) == n
  {
    if n < 10 {
      assert Value([n as char + '0']) == 10 * Value("") + n;
    } else {
      DigitsValue(n / 10);
      assert Digits(n)[..|Digits(n)| - 1] == Digits(n / 10);
    }
  }

  lemma AtoiItoa(n: nat)
    requires n <= MAX_INT
    ensures Atoi(Itoa(n)) == Some(n)
  {
    DigitsValue(n);
    assert IsDigit(Digits(n)[0]);
  }
}
